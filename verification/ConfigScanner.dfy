/** The scanner: the longest match among its rules, string escapes, numbers. Text is a string
    without NUL; the @include directive is outside the model. */
module ConfigScanner {
  import opened ConfigHeap
  import opened ConfigParser
  import opened ConfigNumbers

  // ---------- character classes ----------

  const FORMFEED: char := '\U{0C}'

  datatype Class = Blank | Decimal | Hexadecimal | NameTail | NotNewline

  predicate In(k: Class, c: char) {
    match k
    case Blank => c == ' ' || c == '\t'
    case Decimal => Digit(c, 10)
    case Hexadecimal => Digit(c, 16)
    case NameTail => NameChar(c)
    case NotNewline => c != '\n'
  }

  // How many characters of a class the text begins with.
  function Span(k: Class, t: string): (n: nat)
    ensures n <= |t| && (forall i :: 0 <= i < n ==> In(k, t[i])) && (n < |t| ==> !In(k, t[n]))
  {
    if t == [] || !In(k, t[0]) then 0 else 1 + Span(k, t[1..])
  }

  lemma {:induction false} SpanIs(k: Class, s: string, rest: string)
    requires (forall i :: 0 <= i < |s| ==> In(k, s[i])) && (rest != [] ==> !In(k, rest[0]))
    ensures Span(k, s + rest) == |s|
  {
    var t := s + rest;
    assert forall i :: 0 <= i < |s| ==> t[i] == s[i];
    assert rest != [] ==> t[|s|] == rest[0];
  }

  // ---------- numbers ----------

  function Sign(t: string): nat {
    if t != [] && (t[0] == '-' || t[0] == '+') then 1 else 0
  }

  function At(t: string, i: nat): char {
    if i < |t| then t[i] else '\0'
  }

  function From(t: string, i: nat): string {
    if i <= |t| then t[i..] else []
  }

  // [-+]?[0-9]+
  function IntegerLength(t: string): nat {
    var d := Span(Decimal, t[Sign(t)..]);
    if d == 0 then 0 else Sign(t) + d
  }

  // 0[Xx][0-9A-Fa-f]+
  function HexLength(t: string): nat {
    var h := if |t| >= 2 && t[0] == '0' && (t[1] == 'x' || t[1] == 'X') then Span(Hexadecimal, t[2..]) else 0;
    if h == 0 then 0 else 2 + h
  }

  // The same with L or LL behind it.
  function LongLength(t: string, n: nat): nat {
    if n == 0 || At(t, n) != 'L' then 0 else if At(t, n + 1) == 'L' then n + 2 else n + 1
  }

  // ([eE][-+]?[0-9]+)? at a place
  function ExponentLength(t: string): nat {
    if t == [] || (t[0] != 'e' && t[0] != 'E') then 0
    else
      var n := IntegerLength(t[1..]);
      if n == 0 then 0 else 1 + n
  }

  // The place behind the sign and the digits in front.
  function Middle(t: string): nat {
    Sign(t) + Span(Decimal, t[Sign(t)..])
  }

  // What a point, digits and an exponent, or an exponent alone take up from there.
  function Tail(t: string, g: nat): nat
    requires g < |t|
  {
    if t[g] == '.' then
      var n := Span(Decimal, t[g + 1..]);
      1 + n + ExponentLength(t[g + 1 + n..])
    else ExponentLength(t[g..])
  }

  // [-+]?[0-9]*\.[0-9]*(exponent)? or [-+]?[0-9]+(\.[0-9]*)?exponent
  function FloatLength(t: string): nat {
    var g := Middle(t);
    if g >= |t| then 0
    else if t[g] != '.' && (g == Sign(t) || Tail(t, g) == 0) then 0
    else g + Tail(t, g)
  }

  // ---------- strings ----------

  // What follows the opening quote: the string's value and how far its closing quote is.
  datatype Text = Text(value: string, n: nat) | Unclosed

  function Prefixed(s: string, k: nat, r: Text): Text {
    match r case Unclosed => Unclosed case Text(v, n) => Text(s + v, k + n)
  }

  predicate Escape(c: char) {
    c == 'n' || c == 'r' || c == 't' || c == 'f' || c == '\\' || c == '\"'
  }

  function Unescaped(c: char): char {
    if c == 'n' then '\n' else if c == 'r' then '\r' else if c == 't' then '\t' else if c == 'f' then FORMFEED else c
  }

  // The character \xHH stands for; \x00 adds nothing to a C string.
  function HexChar(h: char, l: char): string
    requires Digit(h, 16) && Digit(l, 16)
  {
    var v := 16 * DigitValue(h) + DigitValue(l);
    if v == 0 then [] else [v as char]
  }

  function Quoted(t: string): Text
    decreases |t|
  {
    if t == [] then Unclosed
    else if t[0] == '\"' then Text([], 1)
    else if t[0] != '\\' then Prefixed([t[0]], 1, Quoted(t[1..]))
    else if |t| >= 2 && Escape(t[1]) then Prefixed([Unescaped(t[1])], 2, Quoted(t[2..]))
    else if |t| >= 4 && (t[1] == 'x' || t[1] == 'X') && Digit(t[2], 16) && Digit(t[3], 16) then
      Prefixed(HexChar(t[2], t[3]), 4, Quoted(t[4..]))
    else Prefixed([], 1, Quoted(t[1..])) // no rule takes the backslash; it is echoed and dropped
  }

  // ---------- one match ----------

  datatype Lexeme = Skip(n: nat) | Found(token: Token, n: nat) | Finished | Outside

  function Lower(c: char): char {
    if 'A' <= c <= 'Z' then (c as int + 32) as char else c
  }

  predicate SameWord(s: string, word: string) {
    |s| == |word| && forall i :: 0 <= i < |s| ==> Lower(s[i]) == word[i]
  }

  function Word(t: string): Lexeme {
    var n := Span(NameTail, t);
    if SameWord(t[..n], "true") then Found(TokBoolean(1), n)
    else if SameWord(t[..n], "false") then Found(TokBoolean(0), n)
    else Found(TokName(t[..n]), n)
  }

  function Longest(a: nat, b: nat): nat {
    if a >= b then a else b
  }

  // The longest of the number rules; a single character is left to the last rule if none matches.
  function Number(t: string): Lexeme
    requires t != []
  {
    var f, i, h := FloatLength(t), IntegerLength(t), HexLength(t);
    var li, lh := LongLength(t, i), LongLength(t, h);
    var n := Longest(f, Longest(Longest(i, li), Longest(h, lh)));
    if n == 0 || n > |t| then Found(TokGarbage, 1)
    else if n == f then Found(TokFloat(t[..n]), n)
    else if n == i then Found(TokInteger(Signed(Clamped(Atoi(t[..n])), TWO32)), n)
    else if n == li then Found(TokInteger64(Signed(Clamped(Atoi(t[..n])), TWO64)), n)
    else if n == h then Found(TokHex(Signed(ClampedHex(StrtoulHex(t[..n])), TWO32)), n)
    else Found(TokHex64(Signed(ClampedHex(StrtoulHex(t[..n])), TWO64)), n)
  }

  // Where a block comment ends; the end of the text if it does not.
  function CommentEnd(t: string): (n: nat)
    ensures n <= |t|
  {
    if |t| < 2 then |t| else if t[0] == '*' && t[1] == '/' then 2 else 1 + CommentEnd(t[1..])
  }

  // A comment to the end of its line, which must have one.
  function LineComment(t: string): Lexeme {
    var n := Span(NotNewline, t);
    if n == |t| then Found(TokGarbage, 1) else Skip(n)
  }

  // Blanks are skipped if a character other than @ follows; the rule looks at that character.
  function Blanks(t: string): Lexeme {
    var n := Span(Blank, t);
    if n < |t| && t[n] == '@' then Outside
    else if n < |t| then Skip(n)
    else if n >= 2 then Skip(n - 1)
    else Found(TokGarbage, 1)
  }

  function Lex(t: string): Lexeme
    requires t != []
  {
    var c := t[0];
    if c == '\n' || c == '\r' || c == FORMFEED then Skip(1)
    else if c == ' ' || c == '\t' then Blanks(t)
    else if c == '@' then Outside
    else if c == '#' then LineComment(t)
    else if c == '/' then
      if At(t, 1) == '/' then LineComment(t)
      else if At(t, 1) == '*' then Skip(2 + CommentEnd(From(t, 2)))
      else Found(TokGarbage, 1)
    else if c == '\"' then
      match Quoted(t[1..])
      case Unclosed => Finished
      case Text(v, n) => Found(TokString(v), 1 + n)
    else if NameStart(c) then Word(t)
    else if Digit(c, 10) || c == '-' || c == '+' || c == '.' then Number(t)
    else if c == '=' || c == ':' then Found(TokEquals, 1)
    else if c == ',' then Found(TokComma, 1)
    else if c == '{' then Found(TokGroupStart, 1)
    else if c == '}' then Found(TokGroupEnd, 1)
    else if c == '[' then Found(TokArrayStart, 1)
    else if c == ']' then Found(TokArrayEnd, 1)
    else if c == '(' then Found(TokListStart, 1)
    else if c == ')' then Found(TokListEnd, 1)
    else if c == ';' then Found(TokEnd, 1)
    else Found(TokGarbage, 1)
  }

  // ---------- the whole text ----------

  datatype Scanned = Tokens(tokens: seq<Token>) | NotModelled

  function Before(ts: seq<Token>, r: Scanned): Scanned {
    match r case NotModelled => NotModelled case Tokens(us) => Tokens(ts + us)
  }

  function Scan(t: string): Scanned
    decreases |t|
  {
    if t == [] then Tokens([])
    else
      match Lex(t)
      case Outside => NotModelled
      case Finished => Tokens([])
      case Skip(n) => if 0 < n <= |t| then Scan(t[n..]) else Tokens([])
      case Found(token, n) => if 0 < n <= |t| then Before([token], Scan(t[n..])) else Tokens([])
  }
}
