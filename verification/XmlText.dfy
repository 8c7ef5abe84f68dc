/** Entity encoding and decoding of attribute text. */
module XmlText {
  import opened Wrappers
  import opened Utf8

  // A text in memory ends in a NUL, so a text here has none; its characters are bytes.

  // ---------- writing ----------

  function HexDigit(n: nat): char
    requires n < 16
  {
    if n < 10 then '0' + n as char else 'A' + (n - 10) as char
  }

  // What one character is written as.
  function Escape(c: char): (s: string)
    ensures |s| >= 1
  {
    if c == '&' then "&amp;"
    else if c == '<' then "&lt;"
    else if c == '>' then "&gt;"
    else if c == '\"' then "&quot;"
    else if c == '\'' then "&apos;"
    else if c as int < 32 then ['&', '#', 'x', HexDigit(c as int / 16), HexDigit(c as int % 16), ';']
    else [c]
  }

  // Something that looks like a hexadecimal character reference.
  predicate Reference(s: string) {
    |s| > 2 && s[0] == '&' && s[1] == '#' && s[2] == 'x'
  }

  // How much of it is passed through: up to a semicolon, or all but the last character.
  function Passed(s: string, k: nat): (n: nat)
    requires 0 < k < |s|
    ensures k <= n < |s|
    ensures s[n] == ';' || n == |s| - 1
    ensures forall i :: k <= i < n ==> s[i] != ';'
    decreases |s| - k
  {
    if s[k] == ';' || k == |s| - 1 then k else Passed(s, k + 1)
  }

  function Encode(s: string): string
    decreases |s|
  {
    if s == [] then []
    else if Reference(s) then
      var n := Passed(s, 1);
      s[..n] + Encode(s[n..])
    else Escape(s[0]) + Encode(s[1..])
  }

  lemma {:induction false} EncodeOne(s: string)
    requires s != []
    ensures Encode(s) ==
      if Reference(s) then s[..Passed(s, 1)] + Encode(s[Passed(s, 1)..]) else Escape(s[0]) + Encode(s[1..])
  {
  }

  // The same at a place in a text.
  lemma {:induction false} EncodeAt(str: string, i: nat)
    requires i < |str|
    ensures Reference(str[i..]) <==> i < |str| - 2 && str[i] == '&' && str[i + 1] == '#' && str[i + 2] == 'x'
    ensures Reference(str[i..]) ==>
      var n := Passed(str[i..], 1); Encode(str[i..]) == str[i..i + n] + Encode(str[i + n..])
    ensures !Reference(str[i..]) ==> Encode(str[i..]) == Escape(str[i]) + Encode(str[i + 1..])
  {
    hide Encode;
    hide Escape;
    hide Passed;
    var rest := str[i..];
    EncodeOne(rest);
    if Reference(rest) {
      var n := Passed(rest, 1);
      assert rest[..n] == str[i..i + n] && rest[n..] == str[i + n..];
    } else {
      assert rest[1..] == str[i + 1..];
    }
  }

  // The first place from k on where passing through ends.
  lemma {:induction false} PassedIs(s: string, k: nat, n: nat)
    requires 0 < k <= n < |s| && (s[n] == ';' || n == |s| - 1)
    requires forall i :: k <= i < n ==> s[i] != ';'
    ensures Passed(s, k) == n
  {
  }

  // EncodeString
  method EncodeString(str: string) returns (out: string)
    ensures out == Encode(str)
  {
    hide Encode;
    hide Escape;
    hide Passed;
    hide HexDigit;
    out := [];
    var i := 0;
    assert str[0..] == str;
    while i < |str|
      invariant 0 <= i <= |str|
      invariant Encode(str) == out + Encode(str[i..])
    {
      ghost var before, at := out, i;
      EncodeAt(str, i);
      var c := str[i];
      if c == '&' && i < |str| - 2 && str[i + 1] == '#' && str[i + 2] == 'x' {
        out, i := PassReference(out, str, i);
        Regroup(before, str[at..i], Encode(str[i..]));
      } else {
        out := EscapeOnto(out, c);
        i := i + 1;
        Regroup(before, Escape(c), Encode(str[i..]));
      }
    }
    EncodeNone();
    assert str[|str|..] == [] && out + [] == out;
  }

  // The inner loop of EncodeString.
  method PassReference(before: string, str: string, start: nat) returns (out: string, i: nat)
    requires start + 2 < |str|
    ensures i == start + Passed(str[start..], 1) && out == before + str[start..i]
  {
    hide Passed;
    out, i := before, start;
    while i < |str| - 1
      invariant start <= i < |str|
      invariant out == before + str[start..i]
      invariant forall j :: start < j <= i ==> str[j] != ';'
    {
      out := out + [str[i]];
      i := i + 1;
      assert str[start..i] == str[start..i - 1] + [str[i - 1]];
      if str[i] == ';' { break; }
    }
    PassedIs(str[start..], 1, i - start);
  }

  // The branches of EncodeString for one character.
  method EscapeOnto(before: string, c: char) returns (out: string)
    ensures out == before + Escape(c)
  {
    out := before;
    if c == '&' {
      out := out + "&amp;";
    } else if c == '<' {
      out := out + "&lt;";
    } else if c == '>' {
      out := out + "&gt;";
    } else if c == '\"' {
      out := out + "&quot;";
    } else if c == '\'' {
      out := out + "&apos;";
    } else if c as int < 32 {
      out := out + ("&#x" + [HexDigit(c as int / 16), HexDigit(c as int % 16)] + ";");
    } else {
      out := out + [c];
    }
  }

  // ---------- reading a character ----------

  // The characters read and how far the pointer went.
  datatype Got = Got(out: string, n: nat)

  // Where a semicolon is, from k on.
  function Semicolon(t: string, k: nat): (r: Option<nat>)
    ensures r.Some? ==> k <= r.value < |t| && t[r.value] == ';' && forall i :: k <= i < r.value ==> t[i] != ';'
    ensures r.None? ==> forall i :: k <= i < |t| ==> t[i] != ';'
    decreases |t| - k
  {
    if k >= |t| then None else if t[k] == ';' then Some(k) else Semicolon(t, k + 1)
  }

  function HexValue(c: char): Option<nat> {
    if '0' <= c <= '9' then Some(c as nat - '0' as nat)
    else if 'a' <= c <= 'f' then Some(c as nat - 'a' as nat + 10)
    else if 'A' <= c <= 'F' then Some(c as nat - 'A' as nat + 10)
    else None
  }

  const TWO32: nat := 0x1_0000_0000

  // The digits are read backwards until an x; the multiplier is an unsigned int.
  function HexBack(t: string, q: nat, mult: nat, ucs: nat): Option<nat>
    requires q < |t|
    decreases q
  {
    if t[q] == 'x' then Some(ucs)
    else
      match HexValue(t[q])
      case None => None
      case Some(d) => if q == 0 then None else HexBack(t, q - 1, mult * 16 % TWO32, ucs + mult * d % TWO32)
  }

  function DecimalBack(t: string, q: nat, mult: nat, ucs: nat): Option<nat>
    requires q < |t|
    decreases q
  {
    if t[q] == '#' then Some(ucs)
    else if '0' <= t[q] <= '9' && q > 0 then
      DecimalBack(t, q - 1, mult * 10 % TWO32, ucs + mult * (t[q] as nat - '0' as nat) % TWO32)
    else None
  }

  function Emit(ucs: nat, utf8: bool): string {
    if utf8 then Encoding(ucs) else [(ucs % 256) as char]
  }

  predicate Starts(t: string, s: string) {
    |s| <= |t| && t[..|s|] == s
  }

  // GetEntity, at an ampersand; None is its null result.
  function GetEntity(t: string, utf8: bool): Option<Got>
    requires |t| > 0
  {
    if |t| > 2 && t[1] == '#' then
      var hex := t[2] == 'x';
      if hex && |t| == 3 then None
      else
        match Semicolon(t, if hex then 3 else 2)
        case None => None
        case Some(delta) =>
          match if hex then HexBack(t, delta - 1, 1, 0) else DecimalBack(t, delta - 1, 1, 0)
          case None => None
          case Some(ucs) => Some(Got(Emit(ucs, utf8), delta + 1))
    else if Starts(t, "&amp;") then Some(Got("&", 5))
    else if Starts(t, "&lt;") then Some(Got("<", 4))
    else if Starts(t, "&gt;") then Some(Got(">", 4))
    else if Starts(t, "&quot;") then Some(Got("\"", 6))
    else if Starts(t, "&apos;") then Some(Got("\'", 6))
    else Some(Got("", 1))
  }

  // GetEntity with its loops: a search for the semicolon, then the digits from the last to the first.
  method ReadEntity(t: string, utf8: bool) returns (r: Option<Got>)
    requires |t| > 0
    ensures r == GetEntity(t, utf8)
  {
    hide Encoding;
    hide Starts;
    if |t| > 2 && t[1] == '#' {
      var hex := t[2] == 'x';
      if hex && |t| == 3 { return None; }
      var q := if hex then 3 else 2;
      ghost var from := q;
      while q < |t| && t[q] != ';'
        invariant from <= q <= |t| && Semicolon(t, from) == Semicolon(t, q)
      {
        q := q + 1;
      }
      if q == |t| { return None; }
      var delta := q;
      var ucs := ReadDigits(t, delta - 1, hex);
      if ucs.None? { return None; }
      return Some(Got(Emit(ucs.value, utf8), delta + 1));
    }
    if Starts(t, "&amp;") { return Some(Got("&", 5)); }
    if Starts(t, "&lt;") { return Some(Got("<", 4)); }
    if Starts(t, "&gt;") { return Some(Got(">", 4)); }
    if Starts(t, "&quot;") { return Some(Got("\"", 6)); }
    if Starts(t, "&apos;") { return Some(Got("\'", 6)); }
    return Some(Got("", 1));
  }

  method ReadDigits(t: string, last: nat, hex: bool) returns (r: Option<nat>)
    requires last < |t| && 2 <= |t| && t[1] == '#' && 1 <= last && (hex ==> 2 <= last && t[2] == 'x')
    ensures r == if hex then HexBack(t, last, 1, 0) else DecimalBack(t, last, 1, 0)
  {
    var q := last;
    var mult: nat, ucs: nat := 1, 0;
    if hex {
      while t[q] != 'x'
        invariant 2 <= q <= last && HexBack(t, last, 1, 0) == HexBack(t, q, mult, ucs)
        decreases q
      {
        var d := HexValue(t[q]);
        if d.None? { return None; }
        ucs := ucs + mult * d.value % TWO32;
        mult := mult * 16 % TWO32;
        q := q - 1;
      }
    } else {
      while t[q] != '#'
        invariant 1 <= q <= last && DecimalBack(t, last, 1, 0) == DecimalBack(t, q, mult, ucs)
        decreases q
      {
        if !('0' <= t[q] <= '9') { return None; }
        ucs := ucs + mult * (t[q] as nat - '0' as nat) % TWO32;
        mult := mult * 10 % TWO32;
        q := q - 1;
      }
    }
    return Some(ucs);
  }

  // GetChar; a sequence cut short by the end of the text moves the pointer beyond it.
  function GetChar(t: string, utf8: bool): (r: Option<Got>)
    requires |t| > 0
    ensures r.Some? ==> r.value.n > 0
  {
    var n := if utf8 then ByteTable(t[0]) else 1;
    if n == 1 then
      if t[0] == '&' then GetEntity(t, utf8) else Some(Got([t[0]], 1))
    else if n <= |t| then Some(Got(t[..n], n))
    else Some(Got(t, n))
  }

  // ---------- reading up to a quote ----------

  // The text and what follows the quote; a null pointer; or a pointer beyond the end.
  datatype Read = Read(text: string, rest: string) | Null | Beyond

  function After(out: string, r: Read): Read {
    if r.Read? then Read(out + r.text, r.rest) else r
  }

  function ReadQuoted(t: string, quote: char, utf8: bool): Read
    decreases |t|
  {
    if t == [] then Beyond
    else if t[0] == quote then Read([], t[1..])
    else
      match GetChar(t, utf8)
      case None => Null
      case Some(g) => if g.n > |t| then Beyond else After(g.out, ReadQuoted(t[g.n..], quote, utf8))
  }

  lemma {:induction false} ReadOne(t: string, quote: char, utf8: bool)
    requires t != []
    ensures ReadQuoted(t, quote, utf8) ==
      if t[0] == quote then Read([], t[1..])
      else
        match GetChar(t, utf8)
        case None => Null
        case Some(g) => if g.n > |t| then Beyond else After(g.out, ReadQuoted(t[g.n..], quote, utf8))
  {
    hide GetChar;
  }

  // ReadText when white space is kept and the end tag is a quote.
  method ReadText(t: string, quote: char, utf8: bool) returns (r: Read)
    ensures r == ReadQuoted(t, quote, utf8)
  {
    hide GetChar;
    hide ReadQuoted;
    var text, p := [], 0;
    assert t[0..] == t;
    while p < |t| && t[p] != quote
      invariant 0 <= p <= |t|
      invariant ReadQuoted(t, quote, utf8) == After(text, ReadQuoted(t[p..], quote, utf8))
      decreases |t| - p
    {
      ReadOne(t[p..], quote, utf8);
      var g := GetChar(t[p..], utf8);
      if g.None? { return Null; }
      if g.value.n > |t| - p { return Beyond; }
      AfterAfter(text, g.value.out, ReadQuoted(t[p + g.value.n..], quote, utf8));
      assert t[p..][g.value.n..] == t[p + g.value.n..];
      text := text + g.value.out;
      p := p + g.value.n;
    }
    if p == |t| {
      ReadNone(t[p..], quote, utf8);
      return Beyond;
    }
    ReadOne(t[p..], quote, utf8);
    assert text + [] == text && t[p..][1..] == t[p + 1..];
    return Read(text, t[p + 1..]);
  }

  lemma {:induction false} ReadNone(t: string, quote: char, utf8: bool)
    requires t == []
    ensures ReadQuoted(t, quote, utf8) == Beyond
  {
  }

  lemma AfterAfter(a: string, b: string, r: Read)
    ensures After(a, After(b, r)) == After(a + b, r)
  {
    if r.Read? { assert a + (b + r.text) == (a + b) + r.text; }
  }

  // ---------- one character there and back ----------

  lemma {:induction false} EscapeRead(c: char, t: string, utf8: bool)
    requires IsByte(c) && c as int != 0 && (utf8 ==> ByteTable(c) == 1)
    ensures GetChar(Escape(c) + t, utf8) == Some(Got([c], |Escape(c)|))
  {
    hide GetEntity;
    if c == '&' || c == '<' || c == '>' || c == '\"' || c == '\'' {
      NamedRead(c, t, utf8);
    } else if c as int < 32 {
      ControlRead(c, t, utf8);
    }
  }

  lemma {:induction false} NamedRead(c: char, t: string, utf8: bool)
    requires c == '&' || c == '<' || c == '>' || c == '\"' || c == '\''
    ensures (Escape(c) + t)[0] == '&' && GetEntity(Escape(c) + t, utf8) == Some(Got([c], |Escape(c)|))
  {
    var s, e := Escape(c) + t, Escape(c);
    assert s[..|e|] == e;
    assert forall i :: 0 <= i < |e| ==> s[i] == e[i];
    assert s[1] != '#' && Starts(s, e);
    NamesApart(s, c);
  }

  // The five names have different beginnings.
  lemma {:induction false} NamesApart(s: string, c: char)
    requires c == '&' || c == '<' || c == '>' || c == '\"' || c == '\''
    requires |s| >= |Escape(c)| && forall i :: 0 <= i < |Escape(c)| ==> s[i] == Escape(c)[i]
    ensures Starts(s, "&amp;") ==> c == '&'
    ensures Starts(s, "&lt;") ==> c == '<'
    ensures Starts(s, "&gt;") ==> c == '>'
    ensures Starts(s, "&quot;") ==> c == '\"'
    ensures Starts(s, "&apos;") ==> c == '\''
  {
    assert Starts(s, "&amp;") ==> s[..5][1] == 'a' && s[..5][2] == 'm';
    assert Starts(s, "&lt;") ==> s[..4][1] == 'l';
    assert Starts(s, "&gt;") ==> s[..4][1] == 'g';
    assert Starts(s, "&quot;") ==> s[..6][1] == 'q';
    assert Starts(s, "&apos;") ==> s[..6][1] == 'a' && s[..6][2] == 'p';
  }

  lemma {:induction false} ControlRead(c: char, t: string, utf8: bool)
    requires 0 < c as int < 32
    ensures (Escape(c) + t)[0] == '&' && GetEntity(Escape(c) + t, utf8) == Some(Got([c], 6))
  {
    hide HexBack;
    var s, n := Escape(c) + t, c as int;
    assert s[1] == '#' && s[2] == 'x' && s[3] == HexDigit(n / 16) && s[4] == HexDigit(n % 16) && s[5] == ';';
    assert Semicolon(s, 3) == Some(5);
    HexPairAt(s, 4, n);
    assert Emit(n, utf8) == [c];
  }

  // The first character an escaped text starts with is never a quote.
  lemma {:induction false} EscapeNoQuote(c: char)
    requires c as int != 0
    ensures Escape(c)[0] != '\"' && Escape(c)[0] != '\''
  {
  }

  // ---------- text without references comes back ----------

  predicate HasReference(s: string) {
    exists i :: 0 <= i < |s| && Reference(s[i..])
  }

  predicate Storable(s: string, utf8: bool) {
    Bytes(s) && (forall i :: 0 <= i < |s| ==> s[i] as int != 0) && (utf8 ==> Whole(s))
  }

  predicate Quote(c: char) {
    c == '\"' || c == '\''
  }

  lemma {:induction false} NoReferenceIn(s: string, k: nat)
    requires !HasReference(s) && k <= |s|
    ensures !HasReference(s[k..])
  {
    forall i | 0 <= i < |s[k..]|
      ensures !Reference(s[k..][i..])
    {
      assert s[k..][i..] == s[k + i..];
    }
  }

  lemma {:induction false} StorableIn(s: string, utf8: bool)
    requires Storable(s, utf8) && s != []
    ensures var k := if utf8 then ByteTable(s[0]) else 1;
      && k <= |s| && Storable(s[k..], utf8)
      && (forall i :: 1 <= i < k ==> s[i] as int >= 0x80)
  {
  }

  // Bytes from 0x80 on are written as they are.
  lemma {:induction false} HighBytes(s: string, k: nat)
    requires k <= |s| && forall i :: 0 <= i < k ==> s[i] as int >= 0x80
    ensures Encode(s) == s[..k] + Encode(s[k..])
    decreases k
  {
    hide Encode;
    if k == 0 {
      assert s[0..] == s;
    } else {
      EncodeOne(s);
      HighBytes(s[1..], k - 1);
      assert Escape(s[0]) == [s[0]] && !Reference(s);
      assert s[..k] == [s[0]] + s[1..][..k - 1] && s[1..][k - 1..] == s[k..];
      Regroup([s[0]], s[1..][..k - 1], Encode(s[k..]));
    }
  }

  lemma {:induction false} PlainRoundTrip(s: string, quote: char, rest: string, utf8: bool)
    requires Storable(s, utf8) && !HasReference(s) && Quote(quote)
    ensures ReadQuoted(Encode(s) + [quote] + rest, quote, utf8) == Read(s, rest)
    decreases |s|
  {
    hide Encode;
    hide Escape;
    hide GetChar;
    hide ReadQuoted;
    hide HasReference;
    hide Storable;
    var t := Encode(s) + [quote] + rest;
    if s == [] {
      EncodeNone();
      ReadOne(t, quote, utf8);
      assert t[1..] == rest;
    } else {
      var k := if utf8 then ByteTable(s[0]) else 1;
      StorableIn(s, utf8);
      NoReferenceIn(s, k);
      NoReferenceHere(s);
      PlainRoundTrip(s[k..], quote, rest, utf8);
      var tail := Encode(s[k..]) + [quote] + rest;
      OneUnit(s, k, utf8, tail);
      var e := if k == 1 then Escape(s[0]) else s[..k];
      assert t == e + tail;
      ReadOne(t, quote, utf8);
      assert t[|e|..] == tail;
      assert s[..k] + s[k..] == s;
    }
  }

  lemma {:induction false} EncodeNone()
    ensures Encode([]) == []
  {
  }

  // A character or a sequence of bytes that makes one: how it is written and read.
  lemma {:induction false} OneUnit(s: string, k: nat, utf8: bool, tail: string)
    requires s != [] && Storable(s, utf8) && !Reference(s) && k == (if utf8 then ByteTable(s[0]) else 1) <= |s|
    requires forall i :: 1 <= i < k ==> s[i] as int >= 0x80
    ensures var e := if k == 1 then Escape(s[0]) else s[..k];
      && Encode(s) == e + Encode(s[k..]) && e != [] && !Quote(e[0])
      && GetChar(e + tail, utf8) == Some(Got(s[..k], |e|))
  {
    hide Encode;
    if k == 1 {
      EncodeOne(s);
      EscapeNoQuote(s[0]);
      assert s[..1] == [s[0]];
      EscapeRead(s[0], tail, utf8);
    } else {
      HighBytes(s, k);
      assert (s[..k] + tail)[..k] == s[..k];
    }
  }

  lemma {:induction false} NoReferenceHere(s: string)
    requires !HasReference(s)
    ensures !Reference(s)
  {
    if s != [] { assert s[0..] == s; }
  }

  // ---------- text with a reference does not ----------

  lemma {:induction false} RestShorter(t: string, quote: char, utf8: bool)
    ensures var r := ReadQuoted(t, quote, utf8); r.Read? ==> |r.rest| < |t|
    decreases |t|
  {
    hide GetChar;
    hide ReadQuoted;
    if t == [] {
      ReadNone(t, quote, utf8);
    } else {
      ReadOne(t, quote, utf8);
      if t[0] != quote {
        var g := GetChar(t, utf8);
        if g.Some? && g.value.n <= |t| {
          RestShorter(t[g.value.n..], quote, utf8);
        }
      }
    }
  }

  // Behind a character below 0x80 a sequence starts.
  lemma {:induction false} WholeBehind(s: string, i: nat)
    requires Whole(s) && i < |s| && s[i] as int < 0x80
    ensures Whole(s[i + 1..])
    decreases |s|
  {
    var n := ByteTable(s[0]);
    if i < n {
      assert i == 0;
    } else {
      WholeBehind(s[n..], i - n);
      assert s[n..][i - n + 1..] == s[i + 1..];
    }
  }

  // An outcome that moved the pointer no further than to the rest and lost nothing by it.
  predicate Fair(r: Read, size: nat, rest: string, lost: bool) {
    r.Read? ==> |r.rest| < |rest| || (|r.text| <= size && (lost ==> |r.text| < size))
  }

  // A reference that ends in a semicolon of the text.
  lemma {:induction false} ClosedReference(t: string, n: nat, utf8: bool)
    requires 3 <= n < |t| && Reference(t) && t[n] == ';' && forall i :: 1 <= i < n ==> t[i] != ';'
    ensures var g := GetChar(t, utf8); g.Some? ==> g.value.n == n + 1 && |g.value.out| <= n
  {
    hide HexBack;
    assert Semicolon(t, 3) == Some(n) by { assert Semicolon(t, 3).Some?; }
    if n == 3 { assert HexBack(t, 2, 1, 0) == Some(0) by { HexBackX(t, 2, 1, 0); } }
  }

  lemma {:induction false} HexBackX(t: string, q: nat, mult: nat, ucs: nat)
    requires q < |t| && t[q] == 'x'
    ensures HexBack(t, q, mult, ucs) == Some(ucs)
  {
  }

  lemma {:induction false} HexBackNone(t: string, q: nat, mult: nat, ucs: nat)
    requires q < |t| && t[q] != 'x' && HexValue(t[q]) == None
    ensures HexBack(t, q, mult, ucs) == None
  {
  }

  lemma {:induction false} HexEntity(t: string, d: nat, utf8: bool)
    requires Reference(t) && Semicolon(t, 3) == Some(d)
    ensures GetChar(t, utf8) ==
      match HexBack(t, d - 1, 1, 0)
      case None => None
      case Some(ucs) => Some(Got(Emit(ucs, utf8), d + 1))
  {
    hide HexBack;
    hide Semicolon;
    hide Emit;
  }

  lemma {:induction false} SemicolonIs(t: string, k: nat, d: nat)
    requires k <= d < |t| && t[d] == ';' && forall i :: k <= i < d ==> t[i] != ';'
    ensures Semicolon(t, k) == Some(d)
  {
    assert Semicolon(t, k).Some?;
  }

  // A reference whose last character was escaped.
  lemma {:induction false} EscapedReference(s: string, c: char, tail: string, utf8: bool)
    requires Reference(s + [c]) && |s| >= 3 && ';' !in s && |Escape(c)| > 1
    ensures var g := GetChar(s + Escape(c) + tail, utf8); g.Some? ==> g.value == Got([c], |s| + |Escape(c)|)
  {
    hide HexBack;
    hide Semicolon;
    hide GetChar;
    var e := Escape(c);
    var t := s + e + tail;
    var d := |s| + |e| - 1;
    assert t[0] == s[0] == '&' && t[1] == s[1] == '#' && t[2] == s[2] == 'x';
    EscapeEnds(c);
    assert forall i :: 0 <= i < |s| ==> t[i] == s[i];
    assert forall i :: |s| <= i <= d ==> t[i] == e[i - |s|];
    hide Escape;
    SemicolonIs(t, 3, d);
    EscapedDigits(t, d, c);
    HexEntity(t, d, utf8);
  }

  lemma {:induction false} EscapeEnds(c: char)
    requires |Escape(c)| > 1
    ensures var e := Escape(c); e[|e| - 1] == ';' && forall i :: 0 <= i < |e| - 1 ==> e[i] != ';'
  {
  }

  lemma {:induction false} EscapedDigits(t: string, d: nat, c: char)
    requires var e := Escape(c); 1 < |e| <= d + 1 <= |t| && forall i :: 0 <= i < |e| ==> t[d + 1 - |e| + i] == e[i]
    ensures HexBack(t, d - 1, 1, 0) == if c as int < 32 then Some(c as int) else None
  {
    hide HexBack;
    var e := Escape(c);
    assert t[d + 1 - |e| + (|e| - 2)] == e[|e| - 2];
    if c as int < 32 {
      assert t[d + 1 - |e| + 2] == e[2] && t[d + 1 - |e| + 3] == e[3];
      HexPairAt(t, d - 1, c as int);
    } else {
      HexBackNone(t, d - 1, 1, 0);
    }
  }

  lemma {:induction false} HexPairAt(s: string, q: nat, n: nat)
    requires n < 32 && 2 <= q < |s| && s[q - 2] == 'x' && s[q - 1] == HexDigit(n / 16) && s[q] == HexDigit(n % 16)
    ensures HexBack(s, q, 1, 0) == Some(n)
  {
    hide HexDigit;
    hide HexValue;
    HexDigitValue(n / 16);
    HexDigitValue(n % 16);
    assert HexBack(s, q - 2, 256, n) == Some(n);
    assert HexBack(s, q - 1, 16, n % 16) == Some(n);
  }

  lemma HexDigitValue(n: nat)
    requires n < 16
    ensures HexValue(HexDigit(n)) == Some(n) && HexDigit(n) != 'x'
  {
  }

  // A reference that no semicolon ends before the quote.
  lemma {:induction false} OpenReference(s: string, quote: char, rest: string, utf8: bool)
    requires Reference(s) && ';' !in s && Quote(quote)
    ensures var g := GetChar(s + [quote] + rest, utf8); g.Some? ==> g.value.n > |s| + 1
  {
    hide HexBack;
    var t := s + [quote] + rest;
    assert t[0] == '&' && t[1] == '#' && t[2] == 'x';
    var d := Semicolon(t, 3);
    assert forall i :: 0 <= i < |s| ==> t[i] == s[i];
    assert d.Some? ==> d.value >= |s| + 1;
  }

  lemma {:induction false} ReferenceShrinks(s: string, quote: char, rest: string, utf8: bool)
    requires Storable(s, utf8) && Reference(s) && Quote(quote)
    ensures Fair(ReadQuoted(Encode(s) + [quote] + rest, quote, utf8), |s|, rest, true)
    decreases |s|, 0
  {
    hide Encode;
    hide Escape;
    hide GetChar;
    hide ReadQuoted;
    var n := Passed(s, 1);
    EncodeOne(s);
    EncodeOne(s[n..]);
    assert s[n..][1..] == s[n + 1..];
    if s[n] == ';' {
      var back := Encode(s[n + 1..]);
      PlainEscape(';');
      assert Encode(s) == s[..n + 1] + back;
      if utf8 { WholeBehind(s, n); }
      Shrinks(s[n + 1..], quote, rest, utf8);
      ClosedShrinks(s, n, back, quote, rest, utf8);
    } else {
      EncodeNone();
      assert s[n + 1..] == [] && s == s[..n] + [s[n]];
      assert Encode(s) == s[..n] + Escape(s[n]);
      OpenShrinks(s, n, quote, rest, utf8);
    }
  }

  lemma {:induction false} ClosedShrinks(s: string, n: nat, back: string, quote: char, rest: string, utf8: bool)
    requires Reference(s) && Quote(quote) && n < |s| && s[n] == ';' && forall i :: 1 <= i < n ==> s[i] != ';'
    requires Fair(ReadQuoted(back + [quote] + rest, quote, utf8), |s| - n - 1, rest, false)
    ensures Fair(ReadQuoted(s[..n + 1] + back + [quote] + rest, quote, utf8), |s|, rest, true)
  {
    hide GetChar;
    hide ReadQuoted;
    var t, tail := s[..n + 1] + back + [quote] + rest, back + [quote] + rest;
    assert t == s[..n + 1] + tail;
    ClosedReference(t, n, utf8);
    ReadOne(t, quote, utf8);
    assert t[n + 1..] == tail;
  }

  lemma {:induction false} OpenShrinks(s: string, n: nat, quote: char, rest: string, utf8: bool)
    requires Reference(s) && Quote(quote) && n == |s| - 1 && s == s[..n] + [s[n]] && ';' !in s
    ensures Fair(ReadQuoted(s[..n] + Escape(s[n]) + [quote] + rest, quote, utf8), |s|, rest, true)
  {
    hide Escape;
    hide GetChar;
    hide ReadQuoted;
    var e, tail := Escape(s[n]), [quote] + rest;
    var t := s[..n] + e + [quote] + rest;
    assert t == s[..n] + e + tail;
    if |e| > 1 {
      EscapedTail(s, n);
      EscapedReference(s[..n], s[n], tail, utf8);
      assert t[n + |e|..] == tail && t[0] == s[0];
      ReadOne(t, quote, utf8);
      ReadOne(tail, quote, utf8);
      assert tail[1..] == rest;
    } else {
      PlainEscape(s[n]);
      assert t == s + [quote] + rest && t[0] == s[0];
      OpenReference(s, quote, rest, utf8);
      ReadOne(t, quote, utf8);
      var g := GetChar(t, utf8);
      if g.Some? && g.value.n <= |t| { RestShorter(t[g.value.n..], quote, utf8); }
    }
  }

  lemma {:induction false} PlainEscape(c: char)
    requires |Escape(c)| == 1 || c == ';'
    ensures Escape(c) == [c]
  {
  }

  lemma {:induction false} EscapedTail(s: string, n: nat)
    requires Reference(s) && n == |s| - 1 && |Escape(s[n])| > 1
    ensures n >= 3
  {
  }

  lemma {:induction false} Shrinks(s: string, quote: char, rest: string, utf8: bool)
    requires Storable(s, utf8) && Quote(quote)
    ensures Fair(ReadQuoted(Encode(s) + [quote] + rest, quote, utf8), |s|, rest, HasReference(s))
    decreases |s|, 1
  {
    hide Encode;
    hide ReadQuoted;
    hide Storable;
    hide Fair;
    if Reference(s) {
      ReferenceShrinks(s, quote, rest, utf8);
      FairWeaker(ReadQuoted(Encode(s) + [quote] + rest, quote, utf8), |s|, rest, HasReference(s));
    } else if !HasReference(s) {
      PlainRoundTrip(s, quote, rest, utf8);
      FairRead(s, rest);
    } else {
      assert s != [];
      LaterShrinks(s, quote, rest, utf8);
    }
  }

  lemma {:induction false} FairWeaker(r: Read, size: nat, rest: string, lost: bool)
    requires Fair(r, size, rest, true)
    ensures Fair(r, size, rest, lost) && Fair(r, size, rest, false)
  {
  }

  lemma {:induction false} FairRead(s: string, rest: string)
    ensures Fair(Read(s, rest), |s|, rest, false)
  {
  }

  lemma {:induction false} LaterShrinks(s: string, quote: char, rest: string, utf8: bool)
    requires s != [] && Storable(s, utf8) && Quote(quote) && !Reference(s) && HasReference(s)
    ensures Fair(ReadQuoted(Encode(s) + [quote] + rest, quote, utf8), |s|, rest, true)
    decreases |s|, 0
  {
    hide Encode;
    hide Escape;
    hide GetChar;
    hide ReadQuoted;
    hide Storable;
    hide HasReference;
    var k := if utf8 then ByteTable(s[0]) else 1;
    StorableIn(s, utf8);
    ReferenceLater(s, k);
    var tail := Encode(s[k..]) + [quote] + rest;
    OneUnit(s, k, utf8, tail);
    Shrinks(s[k..], quote, rest, utf8);
    var e := if k == 1 then Escape(s[0]) else s[..k];
    var t := Encode(s) + [quote] + rest;
    assert t == e + tail;
    ReadOne(t, quote, utf8);
    assert t[|e|..] == tail;
  }

  lemma {:induction false} ReferenceLater(s: string, k: nat)
    requires HasReference(s) && !Reference(s) && 0 < k <= |s| && forall i :: 1 <= i < k ==> s[i] as int >= 0x80
    ensures HasReference(s[k..])
  {
    assert s[0..] == s;
    var i :| 0 <= i < |s| && Reference(s[i..]);
    assert i >= k ==> s[k..][i - k..] == s[i..];
  }

  // An attribute value comes back through any quotes exactly if nothing in it looks like a
  // hexadecimal character reference.
  lemma {:induction false} TextRoundTrip(s: string, quote: char, rest: string, utf8: bool)
    requires Storable(s, utf8) && Quote(quote)
    ensures ReadQuoted(Encode(s) + [quote] + rest, quote, utf8) == Read(s, rest) <==> !HasReference(s)
  {
    if HasReference(s) {
      Shrinks(s, quote, rest, utf8);
    } else {
      PlainRoundTrip(s, quote, rest, utf8);
    }
  }

  // The shortest text that does not come back.
  lemma {:induction false} ReferenceLost(quote: char, rest: string, utf8: bool)
    requires Quote(quote)
    ensures Storable("&#x", utf8) && ReadQuoted(Encode("&#x") + [quote] + rest, quote, utf8) != Read("&#x", rest)
  {
    var s := "&#x";
    assert s[0..] == s && Reference(s[0..]);
    assert s[1..] == "#x" && s[2..] == "x" && s[3..] == "";
    assert Whole(s[3..]) && Whole(s[2..]) && Whole(s[1..]) by {
      assert s[1..][1..] == s[2..] && s[2..][1..] == s[3..];
    }
    hide Encode;
    hide ReadQuoted;
    TextRoundTrip(s, quote, rest, utf8);
  }
}
