/** What the entities and character references of attribute text stand for. */
module XmlReferences {
  import opened Wrappers
  import opened Utf8
  import opened XmlText
  import Numbers = ConfigNumbers

  // The reader takes digits from the last to the first with an unsigned multiplier. The value of a
  // row of digits is the one read from left to right.

  // ---------- digits from the last to the first ----------

  function Power(base: nat, e: nat): (p: nat)
    requires base > 0
    ensures p > 0
  {
    if e == 0 then 1 else base * Power(base, e - 1)
  }

  lemma {:induction false} ProductWraps(p: nat, d: nat)
    ensures ((p % TWO32) * d) % TWO32 == (p * d) % TWO32
  {
    var q, r := p / TWO32, p % TWO32;
    assert p * d == TWO32 * (q * d) + r * d by { assert p == TWO32 * q + r; }
    SumWraps(q * d, r * d);
  }

  lemma {:induction false} SumWraps(k: nat, r: nat)
    ensures (TWO32 * k + r) % TWO32 == r % TWO32
  {
    var q := r / TWO32;
    assert TWO32 * k + r == TWO32 * (k + q) + r % TWO32;
  }

  lemma {:induction false} Congruent(a: nat, b: nat, c: nat)
    requires a % TWO32 == b % TWO32
    ensures (c + a) % TWO32 == (c + b) % TWO32
  {
    var qa, qb := a / TWO32, b / TWO32;
    assert c + a == TWO32 * qa + (c + a % TWO32);
    assert c + b == TWO32 * qb + (c + b % TWO32);
    SumWraps(qa, c + a % TWO32);
    SumWraps(qb, c + b % TWO32);
  }

  predicate Weighed(u: nat, ucs: nat, p: nat, v: nat) {
    Sums(u, ucs, p * v)
  }

  predicate Sums(u: nat, ucs: nat, n: nat) {
    u % TWO32 == (ucs + n) % TWO32 && (n < TWO32 ==> u == ucs + n)
  }

  lemma {:induction false} SumsMore(u: nat, ucs: nat, a: nat, b: nat)
    requires Sums(u, ucs + b % TWO32, a)
    ensures Sums(u, ucs, a + b)
  {
    Congruent(b % TWO32, b, ucs + a);
  }

  // One digit more: v is the number in front of it, weighed by the next power.
  lemma {:induction false} OneDigit(base: nat, e: nat, d: nat, v: nat, ucs: nat, u: nat)
    requires base > 0
    requires Weighed(u, ucs + (Power(base, e) % TWO32) * d % TWO32, Power(base, e + 1), v)
    ensures Weighed(u, ucs, Power(base, e), v * base + d)
  {
    hide Sums;
    var p := Power(base, e);
    assert Power(base, e + 1) == base * p;
    hide Power;
    ProductWraps(p, d);
    Regrouped(p, base, v, d);
    SumsMore(u, ucs, base * p * v, p * d);
  }

  lemma {:induction false} Regrouped(p: nat, base: nat, v: nat, d: nat)
    ensures p * (v * base + d) == base * p * v + p * d
  {
  }

  // ---------- the two loops ----------

  predicate IsDigit(c: char, hex: bool) {
    Numbers.Digit(c, if hex then 16 else 10)
  }

  function Mark(hex: bool): char {
    if hex then 'x' else '#'
  }

  ghost predicate Digits(s: string, hex: bool) {
    Numbers.Digits(s, if hex then 16 else 10)
  }

  // What the digits stand for, from left to right.
  ghost function Value(s: string, hex: bool): (n: nat)
    requires Digits(s, hex)
  {
    Numbers.Value(s, if hex then 16 else 10)
  }

  function Back(t: string, q: nat, hex: bool, mult: nat, ucs: nat): Option<nat>
    requires q < |t|
  {
    if hex then HexBack(t, q, mult, ucs) else DecimalBack(t, q, mult, ucs)
  }

  function Base(hex: bool): nat {
    if hex then 16 else 10
  }

  // From a digit on.
  lemma {:induction false} BackDigit(t: string, q: nat, hex: bool, mult: nat, ucs: nat)
    requires 0 < q < |t| && IsDigit(t[q], hex)
    ensures Back(t, q, hex, mult, ucs)
      == Back(t, q - 1, hex, mult * Base(hex) % TWO32, ucs + mult * Numbers.DigitValue(t[q]) % TWO32)
  {
  }

  lemma {:induction false} BackMark(t: string, q: nat, hex: bool, mult: nat, ucs: nat)
    requires q < |t| && t[q] == Mark(hex)
    ensures Back(t, q, hex, mult, ucs) == Some(ucs)
  {
  }

  lemma {:induction false} BackOther(t: string, q: nat, hex: bool, mult: nat, ucs: nat)
    requires q < |t| && t[q] != Mark(hex) && !IsDigit(t[q], hex)
    ensures Back(t, q, hex, mult, ucs) == None
  {
  }

  lemma {:induction false} ValueOfMore(s: string, hex: bool)
    requires s != [] && Digits(s, hex)
    ensures Digits(s[..|s| - 1], hex)
    ensures Value(s, hex) == Value(s[..|s| - 1], hex) * Base(hex) + Numbers.DigitValue(s[|s| - 1])
  {
  }

  // Digits down to a mark.
  lemma {:induction false} BackValue(t: string, p: nat, q: nat, hex: bool, e: nat, ucs: nat)
    requires p <= q < |t| && t[p] == Mark(hex) && Digits(t[p + 1..q + 1], hex)
    ensures var r := Back(t, q, hex, Power(Base(hex), e) % TWO32, ucs);
      r.Some? && Weighed(r.value, ucs, Power(Base(hex), e), Value(t[p + 1..q + 1], hex))
    decreases q
  {
    hide Back;
    hide Digits;
    hide Power;
    hide Weighed;
    hide IsDigit;
    hide Value;
    var mult := Power(Base(hex), e) % TWO32;
    if q == p {
      BackMark(t, q, hex, mult, ucs);
      assert t[p + 1..q + 1] == [];
      NoDigits(ucs, Power(Base(hex), e), hex);
    } else {
      var s := t[p + 1..q + 1];
      LastIsDigit(s, hex);
      assert s[|s| - 1] == t[q] && s[..|s| - 1] == t[p + 1..q];
      ValueOfMore(s, hex);
      BackDigit(t, q, hex, mult, ucs);
      NextPower(Base(hex), e);
      var d := Numbers.DigitValue(t[q]);
      BackValue(t, p, q - 1, hex, e + 1, ucs + mult * d % TWO32);
      var r := Back(t, q, hex, mult, ucs);
      OneDigit(Base(hex), e, d, Value(t[p + 1..q], hex), ucs, r.value);
    }
  }

  lemma {:induction false} NoDigits(ucs: nat, p: nat, hex: bool)
    ensures Digits([], hex) && Weighed(ucs, ucs, p, Value([], hex))
  {
  }

  lemma LastIsDigit(s: string, hex: bool)
    requires s != [] && Digits(s, hex)
    ensures IsDigit(s[|s| - 1], hex) && Numbers.Digit(s[|s| - 1], 16)
  {
  }

  lemma {:induction false} NextPower(base: nat, e: nat)
    requires base > 0
    ensures (Power(base, e) % TWO32) * base % TWO32 == Power(base, e + 1) % TWO32
  {
    ProductWraps(Power(base, e), base);
  }

  // Digits down to something that is neither a digit nor a mark.
  lemma {:induction false} BackFails(t: string, p: nat, q: nat, hex: bool, mult: nat, ucs: nat)
    requires p <= q < |t| && t[p] != Mark(hex) && !IsDigit(t[p], hex) && Digits(t[p + 1..q + 1], hex)
    ensures Back(t, q, hex, mult, ucs) == None
    decreases q
  {
    hide Back;
    hide IsDigit;
    hide Digits;
    if q == p {
      BackOther(t, q, hex, mult, ucs);
    } else {
      var s := t[p + 1..q + 1];
      LastIsDigit(s, hex);
      assert s[|s| - 1] == t[q] && s[..|s| - 1] == t[p + 1..q];
      ValueOfMore(s, hex);
      BackDigit(t, q, hex, mult, ucs);
      BackFails(t, p, q - 1, hex, mult * Base(hex) % TWO32, ucs + mult * Numbers.DigitValue(t[q]) % TWO32);
    }
  }

  // The last place that is no digit; there is one, since the mark is none.
  lemma {:induction false} LastOther(t: string, low: nat, q: nat, hex: bool) returns (p: nat)
    requires low <= q < |t| && !IsDigit(t[low], hex)
    ensures low <= p <= q && !IsDigit(t[p], hex) && Digits(t[p + 1..q + 1], hex)
    decreases q
  {
    if !IsDigit(t[q], hex) {
      p := q;
    } else {
      p := LastOther(t, low, q - 1, hex);
      assert t[p + 1..q + 1] == t[p + 1..q] + [t[q]];
    }
  }

  // ---------- a reference ----------

  // A text that begins like a character reference, and whether it is a hexadecimal one.
  predicate Begins(t: string) {
    |t| > 2 && t[0] == '&' && t[1] == '#'
  }

  function First(t: string): nat
    requires Begins(t)
  {
    if t[2] == 'x' then 3 else 2
  }

  // Where its first semicolon is.
  ghost predicate EndsAt(t: string, k: nat)
    requires Begins(t)
  {
    First(t) <= k < |t| && t[k] == ';' && forall i :: First(t) <= i < k ==> t[i] != ';'
  }

  // What a code point is in an encoding.
  function Bytes(n: nat, utf8: bool): string {
    if utf8 then Encoding(n) else [(n % 256) as char]
  }

  // The characters between the last mark in front of the semicolon and that are digits, of a
  // number whose last 32 bits are read: all of it if there are no more.
  ghost predicate Refers(t: string, k: nat, p: nat, u: nat)
    requires Begins(t) && EndsAt(t, k)
  {
    var hex := t[2] == 'x';
    && First(t) - 1 <= p < k && t[p] == Mark(hex) && Digits(t[p + 1..k], hex)
    && u % TWO32 == Value(t[p + 1..k], hex) % TWO32
    && (Value(t[p + 1..k], hex) < TWO32 ==> u == Value(t[p + 1..k], hex))
  }

  // Behind every mark before the semicolon stands something that is no digit.
  ghost predicate Malformed(t: string, k: nat, p: nat)
    requires Begins(t) && EndsAt(t, k)
  {
    var hex := t[2] == 'x';
    && First(t) <= p < k && !IsDigit(t[p], hex)
    && forall i :: p <= i < k ==> t[i] != Mark(hex)
  }

  // A reference is refused exactly if no semicolon follows, or something that is no digit stands
  // behind the last mark; otherwise it is the code point of its digits.
  lemma {:induction false} ReferenceMeans(t: string, utf8: bool)
    requires Begins(t)
    ensures match GetEntity(t, utf8)
            case None => (forall k: nat :: !EndsAt(t, k)) || exists k: nat, p: nat :: EndsAt(t, k) && Malformed(t, k, p)
            case Some(g) => exists k: nat, p: nat, u: nat ::
              EndsAt(t, k) && Refers(t, k, p, u) && g == Got(Bytes(u, utf8), k + 1)
  {
    hide GetEntity;
    hide Bytes;
    hide Back;
    hide Refers;
    hide Malformed;
    EntityIs(t, utf8);
    match Semicolon(t, First(t))
    case None =>
    case Some(k) =>
      assert EndsAt(t, k);
      var p := DigitsMean(t, k);
  }

  lemma {:induction false} DigitsMean(t: string, k: nat) returns (p: nat)
    requires Begins(t) && EndsAt(t, k)
    ensures match Back(t, k - 1, t[2] == 'x', 1, 0)
            case None => Malformed(t, k, p)
            case Some(u) => Refers(t, k, p, u)
  {
    hide Back;
    hide Value;
    var hex := t[2] == 'x';
    MarkIsNoDigit(hex);
    p := LastOther(t, First(t) - 1, k - 1, hex);
    if t[p] == Mark(hex) {
      WeighedOnce(hex);
      BackValue(t, p, k - 1, hex, 0, 0);
    } else {
      BackFails(t, p, k - 1, hex, 1, 0);
      forall i | p <= i < k
        ensures t[i] != Mark(hex)
      {
        if i > p { assert t[i] == t[p + 1..k][i - p - 1]; }
      }
    }
  }

  lemma {:induction false} EntityIs(t: string, utf8: bool)
    requires Begins(t)
    ensures GetEntity(t, utf8) ==
      match Semicolon(t, First(t))
      case None => None
      case Some(k) =>
        match Back(t, k - 1, t[2] == 'x', 1, 0)
        case None => None
        case Some(u) => Some(Got(Bytes(u, utf8), k + 1))
  {
    hide Semicolon;
    hide HexBack;
    hide DecimalBack;
    if |t| == 3 && t[2] == 'x' { NoSemicolon(t); }
  }

  lemma NoSemicolon(t: string)
    ensures Semicolon(t, |t|) == None
  {
  }

  lemma MarkIsNoDigit(hex: bool)
    ensures !IsDigit(Mark(hex), hex)
  {
  }

  lemma WeighedOnce(hex: bool)
    ensures Power(Base(hex), 0) == 1
    ensures forall u: nat, n: nat :: Weighed(u, 0, 1, n) ==> u % TWO32 == n % TWO32 && (n < TWO32 ==> u == n)
  {
  }

  // The two outcomes exclude each other.
  lemma {:induction false} OneEnd(t: string, k: nat, k': nat)
    requires Begins(t) && EndsAt(t, k) && EndsAt(t, k')
    ensures k == k'
  {
  }

  lemma {:induction false} NotBoth(t: string, k: nat, p: nat, u: nat, p': nat)
    requires Begins(t) && EndsAt(t, k) && Refers(t, k, p, u)
    ensures !Malformed(t, k, p')
  {
    if p < p' < k { assert t[p'] == t[p + 1..k][p' - p - 1]; }
  }

  // A row of digits is read as its number.
  lemma {:induction false} NumberRead(hex: bool, ds: string, rest: string, utf8: bool)
    requires ds != [] && Digits(ds, hex) && Value(ds, hex) < TWO32
    ensures var mark := if hex then "&#x" else "&#";
      GetEntity(mark + ds + ";" + rest, utf8) == Some(Got(Bytes(Value(ds, hex), utf8), |mark| + |ds| + 1))
  {
    hide Bytes;
    hide Value;
    hide GetEntity;
    hide Digits;
    var mark := if hex then "&#x" else "&#";
    var t, k := mark + ds + ";" + rest, |mark| + |ds|;
    Laid(hex, ds, rest);
    ReferenceMeans(t, utf8);
    assert EndsAt(t, k);
    if GetEntity(t, utf8).None? {
      var k': nat, p': nat :| EndsAt(t, k') && Malformed(t, k', p');
      OneEnd(t, k, k');
      NotBoth(t, k, |mark| - 1, Value(ds, hex), p');
    } else {
      var g := GetEntity(t, utf8).value;
      var k': nat, p: nat, u: nat :| EndsAt(t, k') && Refers(t, k', p, u) && g == Got(Bytes(u, utf8), k' + 1);
      OneEnd(t, k, k');
      LastMark(t, k, |mark| - 1, p, Value(ds, hex), u);
    }
  }

  lemma {:induction false} NoMarkBehind(t: string, k: nat, p: nat, u: nat, i: nat)
    requires Begins(t) && EndsAt(t, k) && Refers(t, k, p, u) && p < i < k
    ensures t[i] != Mark(t[2] == 'x')
  {
    assert t[i] == t[p + 1..k][i - p - 1];
  }

  lemma {:induction false} LastMark(t: string, k: nat, p: nat, p': nat, u: nat, u': nat)
    requires Begins(t) && EndsAt(t, k) && Refers(t, k, p, u) && Refers(t, k, p', u')
    ensures p == p'
  {
    hide Digits;
    if p < p' { NoMarkBehind(t, k, p, u, p'); }
    if p' < p { NoMarkBehind(t, k, p', u', p); }
  }

  lemma {:induction false} Laid(hex: bool, ds: string, rest: string)
    requires ds != [] && Digits(ds, hex)
    ensures var mark := if hex then "&#x" else "&#";
      var t, k := mark + ds + ";" + rest, |mark| + |ds|;
      && Begins(t) && (t[2] == 'x' <==> hex) && EndsAt(t, k) && t[|mark|..k] == ds && t[|mark| - 1] == Mark(hex)
      && (Value(ds, hex) < TWO32 ==> Refers(t, k, |mark| - 1, Value(ds, hex)))
  {
    hide Value;
    var mark := if hex then "&#x" else "&#";
    var t, k := mark + ds + ";" + rest, |mark| + |ds|;
    assert forall i :: 0 <= i < |mark| ==> t[i] == mark[i];
    assert forall i :: |mark| <= i < k ==> t[i] == ds[i - |mark|];
    assert t[|mark|..k] == ds;
    assert IsDigit(ds[0], hex);
  }

  // The references of the XML recommendation: decimal digits, and hexadecimal digits of either case.
  lemma {:induction false} DecimalReference(ds: string, rest: string, utf8: bool)
    requires ds != [] && Numbers.Digits(ds, 10) && Numbers.Value(ds, 10) < TWO32
    ensures GetEntity("&#" + ds + ";" + rest, utf8) ==
      Some(Got(if utf8 then Encoding(Numbers.Value(ds, 10)) else [(Numbers.Value(ds, 10) % 256) as char], |ds| + 3))
  {
    hide GetEntity;
    NumberRead(false, ds, rest, utf8);
  }

  lemma {:induction false} HexReference(ds: string, rest: string, utf8: bool)
    requires ds != [] && Numbers.Digits(ds, 16) && Numbers.Value(ds, 16) < TWO32
    ensures GetEntity("&#x" + ds + ";" + rest, utf8) ==
      Some(Got(if utf8 then Encoding(Numbers.Value(ds, 16)) else [(Numbers.Value(ds, 16) % 256) as char], |ds| + 4))
  {
    hide GetEntity;
    NumberRead(true, ds, rest, utf8);
  }

  // The reference to 65 is the letter A in either form.
  lemma {:induction false} LetterA(rest: string)
    ensures GetEntity("&#65;" + rest, false) == Some(Got("A", 5))
    ensures GetEntity("&#x41;" + rest, false) == Some(Got("A", 6))
  {
    hide GetEntity;
    assert "65"[..1] == "6" && "41"[..1] == "4" && "6"[..0] == "" && "4"[..0] == "";
    assert Numbers.Value("6", 10) == 6 && Numbers.Value("4", 16) == 4;
    assert Numbers.Value("65", 10) == 65 && Numbers.Value("41", 16) == 65;
    DecimalReference("65", rest, false);
    HexReference("41", rest, false);
    assert "&#" + "65" + ";" + rest == "&#65;" + rest;
    assert "&#x" + "41" + ";" + rest == "&#x41;" + rest;
  }

  // ---------- names ----------

  // The five names of the XML recommendation, and an ampersand that begins none of them and no
  // number, which is dropped.
  lemma {:induction false} NamedEntities(rest: string, utf8: bool)
    ensures GetEntity("&amp;" + rest, utf8) == Some(Got("&", 5))
    ensures GetEntity("&lt;" + rest, utf8) == Some(Got("<", 4))
    ensures GetEntity("&gt;" + rest, utf8) == Some(Got(">", 4))
    ensures GetEntity("&quot;" + rest, utf8) == Some(Got("\"", 6))
    ensures GetEntity("&apos;" + rest, utf8) == Some(Got("\'", 6))
  {
    hide GetEntity;
    NamedRead('&', rest, utf8);
    NamedRead('<', rest, utf8);
    NamedRead('>', rest, utf8);
    NamedRead('\"', rest, utf8);
    NamedRead('\'', rest, utf8);
  }

  lemma {:induction false} OtherEntity(t: string, utf8: bool)
    requires t != [] && t[0] == '&' && !Begins(t)
    requires !Starts(t, "&amp;") && !Starts(t, "&lt;") && !Starts(t, "&gt;") && !Starts(t, "&quot;") && !Starts(t, "&apos;")
    ensures GetEntity(t, utf8) == Some(Got("", 1))
  {
    hide Starts;
  }

  // ---------- what is read without a reference ----------

  predicate Raw(s: string, quote: char, utf8: bool) {
    '&' !in s && quote !in s && (utf8 ==> Whole(s))
  }

  // Text with neither ampersand nor quote is read as it is, up to the quote; without one the
  // reader runs to the end.
  lemma {:induction false} RawRead(s: string, quote: char, rest: string, utf8: bool)
    requires Raw(s, quote, utf8)
    ensures ReadQuoted(s + [quote] + rest, quote, utf8) == Read(s, rest)
    ensures ReadQuoted(s, quote, utf8) == Beyond
    decreases |s|
  {
    hide ReadQuoted;
    hide GetChar;
    var t := s + [quote] + rest;
    if s == [] {
      ReadNone(s, quote, utf8);
      ReadOne(t, quote, utf8);
      assert t[1..] == rest;
    } else {
      var n := if utf8 then ByteTable(s[0]) else 1;
      RawIn(s, quote, utf8);
      RawChar(s, utf8, [quote] + rest);
      RawChar(s, utf8, []);
      assert s + [] == s && s + ([quote] + rest) == t;
      ReadOne(t, quote, utf8);
      ReadOne(s, quote, utf8);
      assert t[n..] == s[n..] + [quote] + rest;
      RawRead(s[n..], quote, rest, utf8);
      assert s[..n] + s[n..] == s;
    }
  }

  lemma {:induction false} RawIn(s: string, quote: char, utf8: bool)
    requires Raw(s, quote, utf8) && s != []
    ensures var n := if utf8 then ByteTable(s[0]) else 1; n <= |s| && Raw(s[n..], quote, utf8)
  {
    var n := if utf8 then ByteTable(s[0]) else 1;
    assert n <= |s|;
    assert forall c :: c in s[n..] ==> c in s;
  }

  lemma {:induction false} RawChar(s: string, utf8: bool, tail: string)
    requires s != [] && '&' !in s && (utf8 ==> ByteTable(s[0]) <= |s|)
    ensures var n := if utf8 then ByteTable(s[0]) else 1; GetChar(s + tail, utf8) == Some(Got(s[..n], n))
  {
    var n := if utf8 then ByteTable(s[0]) else 1;
    assert (s + tail)[..n] == s[..n];
    assert s[..1] == [s[0]];
  }

  // ---------- what is written ----------

  // A character that must not stand in an attribute's text.
  predicate Unsafe(c: char) {
    c == '<' || c == '>' || c == '\"' || c == '\'' || c as int < 32
  }

  // Text without anything like a hexadecimal reference is written without any of them.
  lemma {:induction false} EncodedSafe(s: string)
    requires !HasReference(s)
    ensures forall i :: 0 <= i < |Encode(s)| ==> !Unsafe(Encode(s)[i])
    decreases |s|
  {
    hide Encode;
    hide HasReference;
    if s == [] {
      EncodeNone();
    } else {
      NoReferenceHere(s);
      NoReferenceIn(s, 1);
      EncodeOne(s);
      EncodedSafe(s[1..]);
      EscapeSafe(s[0]);
    }
  }

  lemma {:induction false} EscapeSafe(c: char)
    ensures forall i :: 0 <= i < |Escape(c)| ==> !Unsafe(Escape(c)[i])
  {
  }

  // What looks like one is written as it is, up to and with its semicolon; one that has none as it
  // is but for its last character.
  lemma {:induction false} ReferencePassed(body: string, rest: string)
    requires ';' !in body
    ensures Encode("&#x" + body + ";" + rest) == "&#x" + body + ";" + Encode(rest)
  {
    hide Encode;
    var s, n := "&#x" + body + ";" + rest, 3 + |body|;
    assert forall i :: 3 <= i < n ==> s[i] == body[i - 3];
    PassedIs(s, 1, n);
    EncodeOne(s);
    assert s[..n] == "&#x" + body && s[n..] == ";" + rest;
    EncodeOne(s[n..]);
    assert (";" + rest)[1..] == rest;
    PlainEscape(';');
    Regroup("&#x" + body, ";", Encode(rest));
  }

  lemma {:induction false} OpenReferencePassed(body: string, c: char)
    requires ';' !in body && c != ';'
    ensures Encode("&#x" + body + [c]) == "&#x" + body + Escape(c)
  {
    hide Encode;
    hide Escape;
    var s, n := "&#x" + body + [c], 3 + |body|;
    assert forall i :: 3 <= i < n ==> s[i] == body[i - 3];
    PassedIs(s, 1, n);
    EncodeOne(s);
    assert s[..n] == "&#x" + body && s[n..] == [c];
    EncodeOne([c]);
    EncodeNone();
    assert [c][1..] == [];
    assert Escape(c) + [] == Escape(c);
  }
}
