/** The writer's text of scalars and names, character by character, and the scanner on it. */
module ConfigText {
  import opened Wrappers
  import opened ConfigTables
  import opened ConfigParser
  import opened ConfigHeap
  import opened ConfigActions
  import opened ConfigRoundTrip
  import opened ConfigNumbers
  import opened ConfigScanner

  // ---------- scalars ----------

  function UpperHex(n: nat): char
    requires n < 16
    ensures Digit(UpperHex(n), 16) && DigitValue(UpperHex(n)) == n
  {
    if n < 10 then '0' + n as char else 'A' + (n - 10) as char
  }

  function WriteChar(c: char): (s: string)
    requires c as int < 256
    ensures s != []
  {
    if c == '\"' || c == '\\' then ['\\', c]
    else if c == '\n' then "\\n"
    else if c == '\r' then "\\r"
    else if c == FORMFEED then "\\f"
    else if c == '\t' then "\\t"
    else if c >= ' ' then [c]
    else ['\\', 'x', UpperHex(c as int / 16), UpperHex(c as int % 16)]
  }

  // A string of C: bytes, none of them NUL.
  predicate CString(s: string) {
    forall i :: 0 <= i < |s| ==> 0 < s[i] as int < 256
  }

  function WriteChars(s: string): string
    requires CString(s)
  {
    if s == [] then [] else WriteChar(s[0]) + WriteChars(s[1..])
  }

  predicate Word32(i: int) {
    -0x8000_0000 <= i < 0x8000_0000
  }

  predicate Word64(i: int) {
    -0x8000_0000_0000_0000 <= i < 0x8000_0000_0000_0000
  }

  // The text of a floating-point number matches the scanner's rule for them.
  predicate FloatText(f: string) {
    f != [] && FloatLength(f) == |f|
  }

  predicate ScalarText(c: Conf) {
    match c
    case BoolC(_) => true
    case IntC(i, _) => Word32(i)
    case Int64C(i, _) => Word64(i)
    case FloatC(f) => FloatText(f)
    case StringC(s) => s.Some? ==> CString(s.value)
    case _ => false
  }

  function WriteScalar(c: Conf): string
    requires ScalarText(c)
  {
    match c
    case BoolC(i) => if i != 0 then "true" else "false"
    case IntC(i, Plain) => PrintInt(i)
    case IntC(i, Hex) => "0x" + Print(i % TWO32, 16)
    case Int64C(i, Plain) => PrintInt(i) + "L"
    case Int64C(i, Hex) => "0x" + Print(i % TWO64, 16) + "L"
    case FloatC(f) => f
    case StringC(s) => "\"" + WriteChars(if s.Some? then s.value else "") + "\""
  }

  // What may follow a value.
  predicate Separated(rest: string) {
    rest != [] && (rest[0] == ';' || rest[0] == ',' || rest[0] == ' ')
  }

  // ---------- strings ----------

  lemma {:induction false} CharBack(c: char, t: string)
    requires 0 < c as int < 256
    ensures Quoted(WriteChar(c) + t) == Prefixed([c], |WriteChar(c)|, Quoted(t))
  {
    var w := WriteChar(c);
    assert (w + t)[|w|..] == t;
    assert forall i :: 0 <= i < |w| ==> (w + t)[i] == w[i];
    if |w| == 4 {
      assert HexChar(w[2], w[3]) == [c];
    }
  }

  lemma {:induction false} StringBack(s: string, rest: string)
    requires CString(s)
    ensures Quoted(WriteChars(s) + "\"" + rest) == Text(s, |WriteChars(s)| + 1)
  {
    hide WriteChar;
    hide Quoted;
    if s == [] {
      QuoteEnds("\"" + rest);
      assert WriteChars(s) + "\"" + rest == "\"" + rest;
    } else {
      var tail := WriteChars(s[1..]) + "\"" + rest;
      StringBack(s[1..], rest);
      CharBack(s[0], tail);
      assert WriteChars(s) + "\"" + rest == WriteChar(s[0]) + tail;
      assert [s[0]] + s[1..] == s;
    }
  }

  lemma {:induction false} QuoteEnds(t: string)
    requires t != [] && t[0] == '\"'
    ensures Quoted(t) == Text([], 1)
  {
  }

  // ---------- numbers ----------

  lemma {:induction false} SignedIs(i: int, two: int)
    requires (two == TWO32 || two == TWO64) && -(two / 2) <= i < two / 2
    ensures Signed(i, two) == i && Signed(i % two, two) == i
  {
    if i < 0 {
      assert (i + two) % two == i + two;
      assert i % two == i + two;
    }
  }

  // The shape of a printed number: a sign or none, and digits.
  lemma {:induction false} PrintedShape(i: int)
    ensures var s := PrintInt(i); var g := Sign(s);
      && g < |s| && Digits(s[g..], 10) && (g == 1 <==> i < 0) && (g == 1 ==> s[0] == '-') && |s[g..]| > 0
  {
    var m := if i < 0 then -i else i;
    var ds := Print(m, 10);
    if i < 0 {
      assert PrintInt(i)[1..] == ds;
    } else {
      assert PrintInt(i)[0..] == ds && Digit(ds[0], 10);
    }
  }

  // A decimal number and a character that cannot be part of it.
  lemma {:induction false} DecimalLengths(s: string, rest: string)
    requires var g := Sign(s); g < |s| && Digits(s[g..], 10)
    requires rest != [] && !Digit(rest[0], 10)
    requires rest[0] != '.' && rest[0] != 'e' && rest[0] != 'E' && rest[0] != 'x' && rest[0] != 'X'
    ensures IntegerLength(s + rest) == |s| && FloatLength(s + rest) == 0 && HexLength(s + rest) == 0
  {
    var t, g := s + rest, Sign(s);
    assert t[0] == s[0] && Sign(t) == g;
    assert t[g..] == s[g..] + rest;
    SpanIs(Decimal, s[g..], rest);
    assert t[|s|..] == rest && t[|s|] == rest[0];
    if |s| >= 2 {
      assert t[1] == s[1];
      assert Digit(s[g..][1 - g], 10);
    }
  }

  lemma {:induction false} IntegerScans(i: int, rest: string)
    requires Word32(i) && Separated(rest)
    ensures Number(PrintInt(i) + rest) == Found(TokInteger(i), |PrintInt(i)|)
  {
    hide FloatLength;
    hide IntegerLength;
    hide HexLength;
    hide PrintInt;
    hide Atoi;
    var s := PrintInt(i);
    var t := s + rest;
    PrintedShape(i);
    DecimalLengths(s, rest);
    assert t[|s|] == rest[0] && t[..|s|] == s;
    IntRoundTrip(i, "");
    assert s + "" == s;
    SignedIs(i, TWO32);
  }

  lemma {:induction false} Integer64Scans(i: int, rest: string)
    requires Word64(i) && Separated(rest)
    ensures Number(PrintInt(i) + "L" + rest) == Found(TokInteger64(i), |PrintInt(i)| + 1)
  {
    hide FloatLength;
    hide IntegerLength;
    hide HexLength;
    hide PrintInt;
    hide Atoi;
    var s := PrintInt(i);
    var t := s + "L" + rest;
    assert t == s + ("L" + rest);
    PrintedShape(i);
    DecimalLengths(s, "L" + rest);
    assert t[|s|] == 'L' && t[|s| + 1] == rest[0] && t[..|s| + 1] == s + "L";
    IntRoundTrip(i, "L");
    SignedIs(i, TWO64);
  }

  lemma {:induction false} HexLengths(ds: string, rest: string)
    requires ds != [] && Digits(ds, 16) && rest != [] && !Digit(rest[0], 16)
    ensures var t := "0x" + ds + rest;
      IntegerLength(t) == 1 && FloatLength(t) == 0 && HexLength(t) == 2 + |ds| && LongLength(t, 1) == 0
  {
    var t := "0x" + ds + rest;
    assert t[0] == '0' && t[1] == 'x' && t[2..] == ds + rest;
    SpanIs(Hexadecimal, ds, rest);
    assert t[0..] == "0" + t[1..];
    SpanIs(Decimal, "0", t[1..]);
  }

  lemma {:induction false} HexScans(i: int, rest: string)
    requires Word32(i) && Separated(rest)
    ensures var s := "0x" + Print(i % TWO32, 16); Number(s + rest) == Found(TokHex(i), |s|)
  {
    hide FloatLength;
    hide IntegerLength;
    hide HexLength;
    hide Print;
    hide StrtoulHex;
    var ds := Print(i % TWO32, 16);
    var s := "0x" + ds;
    var t := s + rest;
    HexLengths(ds, rest);
    assert t[|s|] == rest[0] && t[..|s|] == s;
    HexRoundTrip(i % TWO32, "");
    assert s + "" == s;
    SignedIs(i, TWO32);
  }

  lemma {:induction false} Hex64Scans(i: int, rest: string)
    requires Word64(i) && Separated(rest)
    ensures var s := "0x" + Print(i % TWO64, 16) + "L"; Number(s + rest) == Found(TokHex64(i), |s|)
  {
    hide FloatLength;
    hide IntegerLength;
    hide HexLength;
    hide Print;
    hide StrtoulHex;
    var ds := Print(i % TWO64, 16);
    var s := "0x" + ds + "L";
    var t := s + rest;
    assert t == "0x" + ds + ("L" + rest);
    HexLengths(ds, "L" + rest);
    assert t[2 + |ds|] == 'L' && t[|s|] == rest[0] && t[..|s|] == s;
    HexRoundTrip(i % TWO64, "L");
    SignedIs(i, TWO64);
  }

  // ---------- floating-point numbers ----------

  lemma {:induction false} IntegerExtends(x: string, rest: string)
    requires x != [] && IntegerLength(x) == |x| && Separated(rest)
    ensures IntegerLength(x + rest) == |x|
  {
    var g := Sign(x);
    assert (x + rest)[0] == x[0] && (x + rest)[g..] == x[g..] + rest;
    SpanIs(Decimal, x[g..], rest);
  }

  lemma {:induction false} ExponentExtends(x: string, rest: string)
    requires ExponentLength(x) == |x| && Separated(rest)
    ensures ExponentLength(x + rest) == |x|
  {
    if x == [] {
      assert x + rest == rest;
    } else {
      assert (x + rest)[0] == x[0] && (x + rest)[1..] == x[1..] + rest;
      IntegerExtends(x[1..], rest);
    }
  }

  // A span that ends inside a text or at its end ends there too when the text goes on.
  lemma {:induction false} SpanExtends(k: Class, x: string, rest: string)
    requires rest != [] && !In(k, rest[0])
    ensures Span(k, x + rest) == Span(k, x)
  {
    var n := Span(k, x);
    assert x + rest == x[..n] + (x[n..] + rest);
    assert (x[n..] + rest)[0] == if n < |x| then x[n] else rest[0];
    SpanIs(k, x[..n], x[n..] + rest);
  }

  lemma {:induction false} TailExtends(f: string, g: nat, rest: string)
    requires g < |f| && Tail(f, g) == |f| - g && Separated(rest)
    ensures Tail(f + rest, g) == |f| - g
  {
    hide Span;
    hide ExponentLength;
    var t := f + rest;
    assert t[g] == f[g];
    if f[g] == '.' {
      var after := f[g + 1..];
      assert t[g + 1..] == after + rest;
      SpanExtends(Decimal, after, rest);
      var e := g + 1 + Span(Decimal, after);
      assert t[e..] == f[e..] + rest;
      ExponentExtends(f[e..], rest);
    } else {
      assert t[g..] == f[g..] + rest;
      ExponentExtends(f[g..], rest);
    }
  }

  lemma {:induction false} FloatExtends(f: string, rest: string)
    requires FloatText(f) && Separated(rest)
    ensures FloatLength(f + rest) == |f| && Middle(f + rest) == Middle(f) < |f|
  {
    hide Span;
    hide Tail;
    var t, s := f + rest, Sign(f);
    assert t[0] == f[0] && t[s..] == f[s..] + rest;
    SpanExtends(Decimal, f[s..], rest);
    FloatMiddle(f);
    var g := Middle(f);
    assert t[g] == f[g];
    TailExtends(f, g, rest);
  }

  // Behind the digits in front is the point or the exponent.
  lemma {:induction false} FloatMiddle(f: string)
    requires FloatText(f)
    ensures var g := Sign(f) + Span(Decimal, f[Sign(f)..]);
      && g < |f| && (f[g] == '.' || f[g] == 'e' || f[g] == 'E')
      && (Digit(f[0], 10) || f[0] == '-' || f[0] == '+' || f[0] == '.')
  {
    hide Span;
    var s := Sign(f);
    var d := Span(Decimal, f[s..]);
    if d > 0 { assert f[s..][0] == f[s]; }
  }

  lemma {:induction false} FloatScans(f: string, rest: string)
    requires FloatText(f) && Separated(rest)
    ensures Number(f + rest) == Found(TokFloat(f), |f|)
  {
    hide Span;
    hide FloatLength;
    hide HexLength;
    var t, s := f + rest, Sign(f);
    FloatExtends(f, rest);
    FloatMiddle(f);
    FrontKept(f, rest, 0);
    FrontKept(f, rest, s);
    SpanExtends(Decimal, f[s..], rest);
    FrontKept(f, rest, s + Span(Decimal, f[s..]));
    NoHex(f, rest);
  }

  lemma {:induction false} FrontKept(a: string, b: string, k: nat)
    requires k <= |a|
    ensures (a + b)[..|a|] == a && (a + b)[k..] == a[k..] + b && (k < |a| ==> (a + b)[k] == a[k])
  {
  }

  lemma {:induction false} NoHex(f: string, rest: string)
    requires FloatText(f) && Separated(rest)
    ensures HexLength(f + rest) == 0
  {
    FloatMiddle(f);
    var t := f + rest;
    assert t[0] == f[0] && (|f| > 1 ==> t[1] == f[1]) && (|f| == 1 ==> t[1] == rest[0] || |t| == 1);
    if f[0] == '0' && |f| > 1 {
      assert f[0..] == f;
      assert Span(Decimal, f) <= 1 || In(Decimal, f[1]);
    }
  }

  // ---------- names ----------

  predicate Keyword(name: string) {
    SameWord(name, "true") || SameWord(name, "false")
  }

  // A valid name scans as a name exactly if it is neither true nor false in any case.
  lemma {:induction false} NameScans(name: string, rest: string)
    requires ValidName(name) && rest != [] && rest[0] == ' '
    ensures Lex(name + rest) == Found(TokName(name), |name|) <==> !Keyword(name)
    ensures Keyword(name) ==> Lex(name + rest) == Found(TokBoolean(if SameWord(name, "true") then 1 else 0), |name|)
    ensures NameStart(name[0]) && name[0] != ' ' && name[0] != '\t' && name[0] != '@'
  {
    assert forall i :: 0 <= i < |name| ==> In(NameTail, name[i]);
    SpanIs(NameTail, name, rest);
    var t := name + rest;
    assert t[0] == name[0] && t[..|name|] == name;
  }

  // ---------- one scalar ----------

  lemma {:induction false} BoolScans(i: int, rest: string)
    requires Separated(rest)
    ensures var s := if i != 0 then "true" else "false"; Lex(s + rest) == Found(TokBoolean(if i != 0 then 1 else 0), |s|)
  {
    hide Number;
    hide Quoted;
    var s := if i != 0 then "true" else "false";
    SpanIs(NameTail, s, rest);
    assert (s + rest)[..|s|] == s && (s + rest)[0] == s[0];
  }

  lemma {:induction false} ScalarScans(c: Conf, rest: string)
    requires ScalarText(c) && Separated(rest)
    ensures var s := WriteScalar(c);
      && s != [] && s[0] != ' ' && s[0] != '\t' && s[0] != '@'
      && |ValueTokens(c)| == 1 && Lex(s + rest) == Found(ValueTokens(c)[0], |s|)
  {
    hide Number;
    hide Quoted;
    hide WriteChars;
    hide FloatText;
    hide Print;
    hide PrintInt;
    hide Word;
    var s := WriteScalar(c);
    assert forall i :: 0 <= i < |s| ==> (s + rest)[i] == s[i];
    match c
    case BoolC(i) => BoolScans(i, rest);
    case IntC(i, Plain) =>
      IntegerScans(i, rest);
      PrintedShape(i);
      PrintedHead(i);
    case IntC(i, Hex) => HexScans(i, rest);
    case Int64C(i, Plain) =>
      Integer64Scans(i, rest);
      PrintedHead(i);
    case Int64C(i, Hex) => Hex64Scans(i, rest);
    case FloatC(f) =>
      FloatScans(f, rest);
      FloatHead(f);
    case StringC(v) =>
      var w := if v.Some? then v.value else "";
      StringBack(w, rest);
      assert (s + rest)[1..] == WriteChars(w) + "\"" + rest;
  }

  lemma {:induction false} PrintedHead(i: int)
    ensures var s := PrintInt(i); s != [] && (Digit(s[0], 10) || s[0] == '-')
  {
    PrintedShape(i);
    var s := PrintInt(i);
    if Sign(s) == 0 { assert Digit(s[0..][0], 10); }
  }

  lemma {:induction false} FloatHead(f: string)
    requires FloatText(f)
    ensures f != [] && (Digit(f[0], 10) || f[0] == '-' || f[0] == '+' || f[0] == '.')
  {
    FloatMiddle(f);
  }

  // ---------- how scalars look ----------

  // The scalars: decimal, hexadecimal and 64-bit numbers, truth values, and a string with escapes.
  lemma {:induction false} ExampleNumbers()
    ensures WriteScalar(IntC(1, Plain)) == "1" && WriteScalar(IntC(-2, Plain)) == "-2"
    ensures WriteScalar(IntC(31, Hex)) == "0x1F" && WriteScalar(Int64C(31, Hex)) == "0x1FL"
    ensures WriteScalar(Int64C(-2, Plain)) == "-2L"
    ensures WriteScalar(BoolC(1)) == "true" && WriteScalar(BoolC(0)) == "false"
  {
    assert Print(1, 10) == "1" && Print(2, 10) == "2" && Print(1, 16) == "1";
    assert Print(31, 16) == "1" + "F";
  }

  lemma {:induction false} ExampleEscapes()
    ensures WriteChar('a') == "a" && WriteChar('\"') == "\\\"" && WriteChar('\\') == "\\\\"
    ensures WriteChar('\n') == "\\n" && WriteChar('\t') == "\\t" && WriteChar('\r') == "\\r" && WriteChar('\U{0C}') == "\\f"
    ensures WriteChar('\U{01}') == "\\x01" && WriteChar('\U{1F}') == "\\x1F" && WriteChar('\U{E9}') == ['\U{E9}']
    ensures WriteScalar(StringC(None)) == "\"\""
  {
  }
}
