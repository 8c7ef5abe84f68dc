/** Printing an attribute and parsing it back. */
module XmlAttribute {
  import opened Wrappers
  import opened Utf8
  import opened XmlText
  import opened XmlReferences

  // ---------- names ----------

  // isalpha and isalnum of the C locale; every byte from 127 on passes for a letter.
  predicate IsAlpha(c: char) {
    'a' <= c <= 'z' || 'A' <= c <= 'Z' || c as int >= 127
  }

  predicate NameStart(c: char) {
    IsAlpha(c) || c == '_'
  }

  predicate NamePart(c: char) {
    IsAlpha(c) || '0' <= c <= '9' || c == '_' || c == '-' || c == '.' || c == ':'
  }

  function NameLength(t: string): (n: nat)
    ensures n <= |t| && (forall i :: 0 <= i < n ==> NamePart(t[i])) && (n < |t| ==> !NamePart(t[n]))
  {
    if t == [] || !NamePart(t[0]) then 0 else 1 + NameLength(t[1..])
  }

  // ReadName: the length of the name, none if there is none.
  method ReadName(t: string) returns (n: Option<nat>)
    ensures n == if t != [] && NameStart(t[0]) then Some(NameLength(t)) else None
  {
    if t == [] || !NameStart(t[0]) { return None; }
    var p := 0;
    assert t[0..] == t;
    while p < |t| && NamePart(t[p])
      invariant 0 <= p <= |t| && NameLength(t) == p + NameLength(t[p..])
    {
      assert t[p..][1..] == t[p + 1..];
      p := p + 1;
    }
    return Some(p);
  }

  // ---------- white space ----------

  predicate IsSpace(c: char) {
    c == ' ' || 9 <= c as int <= 13
  }

  // The byte order marks and non-characters that are skipped in UTF-8.
  predicate Mark3(t: string) {
    |t| >= 3 && t[0] as int == 0xEF
    && ((t[1] as int == 0xBB && t[2] as int == 0xBF)
        || (t[1] as int == 0xBF && (t[2] as int == 0xBE || t[2] as int == 0xBF)))
  }

  function Skipped(t: string, utf8: bool): string
    decreases |t|
  {
    if utf8 && Mark3(t) then Skipped(t[3..], utf8)
    else if t != [] && IsSpace(t[0]) then Skipped(t[1..], utf8)
    else t
  }

  lemma {:induction false} SkippedNone(utf8: bool)
    ensures Skipped([], utf8) == []
  {
  }

  // SkipWhiteSpace; a null pointer for an empty text
  method SkipWhiteSpace(t: string, utf8: bool) returns (r: Option<string>)
    ensures r == if t == [] then None else Some(Skipped(t, utf8))
  {
    if t == [] { return None; }
    var p := 0;
    assert t[0..] == t;
    while p < |t| && ((utf8 && Mark3(t[p..])) || IsSpace(t[p]))
      invariant 0 <= p <= |t| && Skipped(t, utf8) == Skipped(t[p..], utf8)
      decreases |t| - p
    {
      if utf8 && Mark3(t[p..]) {
        assert t[p..][3..] == t[p + 3..];
        p := p + 3;
      } else {
        assert t[p..][1..] == t[p + 1..];
        p := p + 1;
      }
    }
    return Some(t[p..]);
  }

  // ---------- printing ----------

  function Printed(name: string, value: string): string {
    var quote := if '\"' in value then '\'' else '\"';
    Encode(name) + ['=', quote] + Encode(value) + [quote]
  }

  // TiXmlAttribute::Print onto a string
  method Print(name: string, value: string) returns (str: string)
    ensures str == Printed(name, value)
    ensures '\"' !in value ==> str == Encode(name) + "=\"" + Encode(value) + "\""
    ensures '\"' in value ==> str == Encode(name) + "='" + Encode(value) + "'"
  {
    var n := EncodeString(name);
    var v := EncodeString(value);
    if '\"' !in value {
      str := n + "=\"" + v + "\"";
    } else {
      str := n + "='" + v + "'";
    }
  }

  // ---------- parsing ----------

  // An attribute and what follows it; a null pointer; a pointer beyond the end.
  datatype Parsed = Parsed(name: string, value: string, rest: string) | Failed | Overrun

  function Bare(t: string): (n: nat)
    ensures n <= |t|
  {
    if t == [] || IsSpace(t[0]) || t[0] == '/' || t[0] == '>' || Quote(t[0]) then 0 else 1 + Bare(t[1..])
  }

  function ParseValue(name: string, t: string, utf8: bool): Parsed
    requires t != []
  {
    if Quote(t[0]) then
      match ReadQuoted(t[1..], t[0], utf8)
      case Null => Failed
      case Beyond => Overrun
      case Read(text, rest) => Parsed(name, text, rest)
    else
      var n := Bare(t);
      if n < |t| && Quote(t[n]) then Failed else Parsed(name, t[..n], t[n..])
  }

  function Attribute(t: string, utf8: bool): Parsed {
    var a := Skipped(t, utf8);
    if a == [] || !NameStart(a[0]) then Failed
    else
      var n := NameLength(a);
      var b := Skipped(a[n..], utf8);
      if b == [] || b[0] != '=' then Failed
      else
        var c := Skipped(b[1..], utf8);
        if c == [] then Failed else ParseValue(a[..n], c, utf8)
  }

  // TiXmlAttribute::Parse
  method Parse(t: string, utf8: bool) returns (r: Parsed)
    ensures r == Attribute(t, utf8)
  {
    hide Skipped;
    hide NameLength;
    hide ReadQuoted;
    hide Bare;
    SkippedNone(utf8);
    var a := SkipWhiteSpace(t, utf8);
    if a.None? || a.value == [] { return Failed; }
    var n := ReadName(a.value);
    if n.None? { return Failed; }
    if n.value == |a.value| {
      assert a.value[n.value..] == [];
      return Failed;
    }
    var name := a.value[..n.value];
    var b := SkipWhiteSpace(a.value[n.value..], utf8);
    if b.None? || b.value == [] || b.value[0] != '=' { return Failed; }
    var c := SkipWhiteSpace(b.value[1..], utf8);
    if c.None? || c.value == [] { return Failed; }
    var p := c.value;
    if Quote(p[0]) {
      var text := ReadText(p[1..], p[0], utf8);
      match text {
        case Null => return Failed;
        case Beyond => return Overrun;
        case Read(v, rest) => return Parsed(name, v, rest);
      }
    }
    r := ParseBare(name, p);
  }

  // A value without quotes, which a quote must not end.
  method ParseBare(name: string, p: string) returns (r: Parsed)
    requires p != [] && !Quote(p[0])
    ensures r == ParseValue(name, p, false)
  {
    var i := 0;
    assert p[0..] == p;
    while i < |p| && !IsSpace(p[i]) && p[i] != '/' && p[i] != '>'
      invariant 0 <= i <= |p| && Bare(p) == i + Bare(p[i..])
    {
      assert p[i..][1..] == p[i + 1..];
      if Quote(p[i]) { return Failed; }
      i := i + 1;
    }
    return Parsed(name, p[..i], p[i..]);
  }

  // ---------- there and back ----------

  predicate Name(s: string, utf8: bool) {
    s != [] && NameStart(s[0]) && (forall i :: 0 <= i < |s| ==> NamePart(s[i])) && (utf8 ==> !Mark3(s))
  }

  lemma {:induction false} NameEncoded(s: string)
    requires forall i :: 0 <= i < |s| ==> NamePart(s[i])
    ensures Encode(s) == s
    decreases |s|
  {
    hide Encode;
    if s == [] {
      EncodeNone();
    } else {
      EncodeOne(s);
      NameEncoded(s[1..]);
      assert Escape(s[0]) == [s[0]];
    }
  }

  lemma {:induction false} NameEnds(s: string, t: string)
    requires (forall i :: 0 <= i < |s| ==> NamePart(s[i])) && t != [] && !NamePart(t[0])
    ensures NameLength(s + t) == |s|
  {
    if s != [] {
      assert (s + t)[1..] == s[1..] + t;
      NameEnds(s[1..], t);
    }
  }

  // Names survive, and the value comes back with what followed the attribute exactly if nothing
  // in it looks like a hexadecimal character reference.
  lemma {:induction false} AttributeRoundTrip(name: string, value: string, rest: string, utf8: bool)
    requires Name(name, utf8) && Storable(value, utf8)
    ensures Attribute(Printed(name, value) + rest, utf8) == Parsed(name, value, rest) <==> !HasReference(value)
  {
    hide Encode;
    hide ReadQuoted;
    hide Storable;
    hide HasReference;
    hide NameLength;
    var quote := if '\"' in value then '\'' else '\"';
    var d := Encode(value) + [quote] + rest;
    var c := [quote] + d;
    var b := ['='] + c;
    var a := Printed(name, value) + rest;
    NameEncoded(name);
    assert a == name + b;
    NotSkipped(name, b, utf8);
    NameEnds(name, b);
    assert a[..|name|] == name && a[|name|..] == b && b[1..] == c && c[1..] == d;
    assert Skipped(b, utf8) == b && Skipped(c, utf8) == c;
    TextRoundTrip(value, quote, rest, utf8);
  }

  lemma {:induction false} NotSkipped(name: string, b: string, utf8: bool)
    requires Name(name, utf8) && |b| > 0 && (b[0] as int) < 0x80
    ensures Skipped(name + b, utf8) == name + b
  {
    var a := name + b;
    assert a[0] == name[0];
    assert forall i :: 0 <= i < |name| ==> a[i] == name[i];
    assert a[|name|] == b[0];
  }

  // ---------- white space, values without quotes, and failures ----------

  predicate Spaces(w: string) {
    forall i :: 0 <= i < |w| ==> w[i] in {' ', '\t', '\n', '\U{0B}', '\U{0C}', '\r'}
  }

  lemma {:induction false} SpacesSkipped(w: string, t: string, utf8: bool)
    requires Spaces(w)
    ensures Skipped(w + t, utf8) == Skipped(t, utf8)
  {
    if w == [] {
      assert w + t == t;
    } else {
      assert (w + t)[0] == w[0] && (w + t)[1..] == w[1..] + t;
      SpacesSkipped(w[1..], t, utf8);
    }
  }

  // White space in front of the name and around the equals sign makes no difference.
  lemma {:induction false} SpacesIgnored(before: string, name: string, left: string, right: string, t: string, utf8: bool)
    requires Spaces(before) && Spaces(left) && Spaces(right) && Name(name, utf8)
    ensures Attribute(before + name + left + "=" + right + t, utf8) == Attribute(name + "=" + t, utf8)
  {
    hide NameLength;
    hide ParseValue;
    hide Name;
    hide Skipped;
    AttributeParts(before, name, left, right + t, utf8);
    AttributeParts("", name, "", t, utf8);
    assert before + name + left + "=" + (right + t) == before + name + left + "=" + right + t;
    assert "" + name + "" + "=" + t == name + "=" + t;
    SpacesSkipped(right, t, utf8);
  }

  lemma {:induction false} AttributeParts(before: string, name: string, left: string, t: string, utf8: bool)
    requires Spaces(before) && Spaces(left) && Name(name, utf8)
    ensures Attribute(before + name + left + "=" + t, utf8) ==
      var c := Skipped(t, utf8); if c == [] then Failed else ParseValue(name, c, utf8)
  {
    hide NameLength;
    hide ParseValue;
    hide Skipped;
    var b := left + ("=" + t);
    assert before + name + left + "=" + t == before + (name + b);
    SpacesSkipped(before, name + b, utf8);
    SpaceOrEquals(left, t);
    NotSkipped(name, b, utf8);
    NameEnds(name, b);
    assert (name + b)[0] == name[0] && (name + b)[..|name|] == name && (name + b)[|name|..] == b;
    SpacesSkipped(left, "=" + t, utf8);
    EqualsStays(t, utf8);
    assert ("=" + t)[1..] == t;
  }

  lemma SpaceOrEquals(left: string, t: string)
    requires Spaces(left)
    ensures var b := left + ("=" + t); b != [] && !NamePart(b[0]) && (b[0] as int) < 0x80
  {
  }

  lemma EqualsStays(t: string, utf8: bool)
    ensures Skipped("=" + t, utf8) == "=" + t && ("=" + t)[0] == '='
  {
  }

  // Characters of a value without quotes, and what ends one.
  predicate Unquoted(v: string) {
    forall i :: 0 <= i < |v| ==> !Spaces([v[i]]) && v[i] !in {'/', '>', '\"', '\''}
  }

  predicate EndsValue(rest: string) {
    rest == [] || Spaces([rest[0]]) || rest[0] == '/' || rest[0] == '>'
  }

  // A value without quotes is taken as it is up to white space or the end of the tag.
  lemma {:induction false} UnquotedValue(name: string, v: string, rest: string, utf8: bool)
    requires Name(name, utf8) && v != [] && Unquoted(v) && EndsValue(rest) && (utf8 ==> !Mark3(v + rest))
    ensures Attribute(name + "=" + v + rest, utf8) == Parsed(name, v, rest)
  {
    hide Skipped;
    hide Bare;
    AttributeParts("", name, "", v + rest, utf8);
    assert "" + name + "" + "=" + (v + rest) == name + "=" + v + rest;
    BareStays(v + rest, utf8) by { OneSpace(v[0]); }
    if rest != [] { OneSpace(rest[0]); }
    BareIs(v, rest);
    assert (v + rest)[..|v|] == v && (v + rest)[|v|..] == rest;
    assert rest != [] ==> (v + rest)[|v|] == rest[0];
  }

  // A quote in it makes the whole attribute fail.
  lemma {:induction false} QuoteInside(name: string, v: string, q: char, rest: string, utf8: bool)
    requires Name(name, utf8) && v != [] && Unquoted(v) && q in {'\"', '\''} && (utf8 ==> !Mark3(v + [q] + rest))
    ensures Attribute(name + "=" + v + [q] + rest, utf8) == Failed
  {
    hide Skipped;
    hide Bare;
    var t := [q] + rest;
    AttributeParts("", name, "", v + t, utf8);
    assert "" + name + "" + "=" + (v + t) == name + "=" + v + [q] + rest;
    assert v + t == v + [q] + rest;
    BareStays(v + t, utf8) by { OneSpace(v[0]); }
    BareIs(v, t);
    assert (v + t)[|v|] == q;
  }

  lemma OneSpace(c: char)
    ensures Spaces([c]) <==> IsSpace(c)
  {
    assert [c][0] == c;
    if Spaces([c]) { assert [c][0] in {' ', '\t', '\n', '\U{0B}', '\U{0C}', '\r'}; }
    assert '\U{0B}' as int == 11 && '\U{0C}' as int == 12 && '\t' as int == 9 && '\n' as int == 10 && '\r' as int == 13;
  }

  lemma BareStays(t: string, utf8: bool)
    requires t != [] && !IsSpace(t[0]) && (utf8 ==> !Mark3(t))
    ensures Skipped(t, utf8) == t
  {
  }

  lemma {:induction false} BareIs(v: string, t: string)
    requires Unquoted(v) && (t != [] ==> IsSpace(t[0]) || t[0] == '/' || t[0] == '>' || Quote(t[0]))
    ensures Bare(v + t) == |v|
  {
    if v == [] {
      assert v + t == t;
    } else {
      OneSpace(v[0]);
      assert (v + t)[0] == v[0] && (v + t)[1..] == v[1..] + t;
      BareIs(v[1..], t);
    }
  }

  // A quoted value with neither ampersand nor its quote is taken as it is, line breaks and all.
  lemma {:induction false} QuotedValue(name: string, quote: char, v: string, rest: string, utf8: bool)
    requires Name(name, utf8) && Quote(quote) && Raw(v, quote, utf8)
    ensures Attribute(name + "=" + [quote] + v + [quote] + rest, utf8) == Parsed(name, v, rest)
  {
    hide Skipped;
    hide ReadQuoted;
    hide Raw;
    var t := [quote] + (v + [quote] + rest);
    AttributeParts("", name, "", t, utf8);
    assert "" + name + "" + "=" + t == name + "=" + [quote] + v + [quote] + rest;
    BareStays(t, utf8);
    assert t[1..] == v + [quote] + rest;
    RawRead(v, quote, rest, utf8);
  }

  // What does not begin with a name, or has no equals sign behind it, fails.
  lemma {:induction false} NoName(w: string, t: string, utf8: bool)
    requires Spaces(w) && (t != [] ==> !IsSpace(t[0]) && !NameStart(t[0]) && (utf8 ==> !Mark3(t)))
    ensures Attribute(w + t, utf8) == Failed
  {
    hide Skipped;
    SpacesSkipped(w, t, utf8);
    if t == [] { SkippedNone(utf8); } else { BareStays(t, utf8); }
  }

  lemma {:induction false} NoEquals(name: string, left: string, t: string, utf8: bool)
    requires Name(name, utf8) && Spaces(left)
    requires t != [] ==>
      t[0] != '=' && !IsSpace(t[0]) && (left == [] ==> !NamePart(t[0])) && (utf8 ==> !Mark3(t))
    ensures Attribute(name + left + t, utf8) == Failed
  {
    hide Skipped;
    hide NameLength;
    var b := left + t;
    assert name + left + t == name + b;
    if b == [] {
      assert name + b == name;
      BareStays(name, utf8) by { assert name[0] as int != 32; }
      NameAlone(name);
      assert name[|name|..] == [];
      SkippedNone(utf8);
    } else {
      assert b[0] == if left == [] then t[0] else left[0];
      assert !NamePart(b[0]) && b[0] as int < 0x80 by { if left != [] { OneSpace(left[0]); } }
      NotSkipped(name, b, utf8);
      NameEnds(name, b);
      assert (name + b)[0] == name[0] && (name + b)[|name|..] == b;
      SpacesSkipped(left, t, utf8);
      if t == [] { SkippedNone(utf8); } else { BareStays(t, utf8); }
    }
  }

  lemma {:induction false} NameAlone(s: string)
    requires forall i :: 0 <= i < |s| ==> NamePart(s[i])
    ensures NameLength(s) == |s|
  {
  }

  // ---------- characters ----------

  // The codes of the characters that may begin a name, and of those that may follow.
  lemma NameCharacters(c: char)
    ensures NameStart(c) <==> var n := c as int; 65 <= n <= 90 || n == 95 || 97 <= n <= 122 || 127 <= n
    ensures NamePart(c) <==>
      var n := c as int; 45 <= n <= 46 || 48 <= n <= 58 || 65 <= n <= 90 || n == 95 || 97 <= n <= 122 || 127 <= n
  {
  }

  // In UTF-8 the byte order mark and the two non-characters U+FFFE and U+FFFF pass for white space,
  // in the other encoding they do not.
  lemma {:induction false} MarksSkipped(a: int, b: int, t: string)
    requires (a, b) in {(0xBB, 0xBF), (0xBF, 0xBE), (0xBF, 0xBF)}
    ensures var mark := [0xEF as char, a as char, b as char];
      Skipped(mark + t, true) == Skipped(t, true) && Skipped(mark + t, false) == mark + t
  {
    var mark := [0xEF as char, a as char, b as char];
    assert (mark + t)[3..] == t && (mark + t)[0] == mark[0] && (mark + t)[1] == mark[1] && (mark + t)[2] == mark[2];
  }
}
