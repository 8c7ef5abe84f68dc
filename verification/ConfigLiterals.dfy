/** String literals through the growing string buffer, and out again. */
module ConfigLiterals {
  import opened ConfigBuffers
  import opened ConfigNumbers
  import opened ConfigScanner
  import opened ConfigText

  // How many characters the rule for plain text takes in a string.
  function PlainRun(t: string): (n: nat)
    ensures n <= |t| && (forall i :: 0 <= i < n ==> t[i] != '\"' && t[i] != '\\')
    ensures n < |t| ==> t[n] == '\"' || t[n] == '\\'
  {
    if t == [] || t[0] == '\"' || t[0] == '\\' then 0 else 1 + PlainRun(t[1..])
  }

  lemma {:induction false} RunTaken(t: string, n: nat)
    requires n <= |t| && forall i :: 0 <= i < n ==> t[i] != '\"' && t[i] != '\\'
    ensures Quoted(t) == Prefixed(t[..n], n, Quoted(t[n..]))
  {
    if n == 0 {
      assert t[0..] == t;
    } else {
      RunTaken(t[1..], n - 1);
      assert t[1..][n - 1..] == t[n..] && [t[0]] + t[1..][..n - 1] == t[..n];
      PrefixedTwice([t[0]], 1, t[1..][..n - 1], n - 1, Quoted(t[n..]));
    }
  }

  lemma {:induction false} PrefixedTwice(a: string, i: nat, b: string, j: nat, r: Text)
    ensures Prefixed(a, i, Prefixed(b, j, r)) == Prefixed(a + b, i + j, r)
  {
    if r.Text? { assert a + (b + r.value) == (a + b) + r.value; }
  }

  lemma {:induction false} QuotedOne(t: string)
    requires t != []
    ensures Quoted(t) ==
      if t[0] == '\"' then Text([], 1)
      else if t[0] != '\\' then Prefixed([t[0]], 1, Quoted(t[1..]))
      else if |t| >= 2 && Escape(t[1]) then Prefixed([Unescaped(t[1])], 2, Quoted(t[2..]))
      else if |t| >= 4 && (t[1] == 'x' || t[1] == 'X') && Digit(t[2], 16) && Digit(t[3], 16) then
        Prefixed(HexChar(t[2], t[3]), 4, Quoted(t[4..]))
      else Prefixed([], 1, Quoted(t[1..]))
  {
  }

  // The rules of the STRING state over the text behind an opening quote.
  method ScanString(t: string, buf: StrBuf) returns (r: Text)
    requires buf.Valid() && buf.Contents() == []
    modifies buf, buf.buffer
    ensures buf.Valid() && r == Quoted(t)
    ensures r.Text? ==> buf.Contents() == []
  {
    hide Quoted;
    hide HexChar;
    var p := 0;
    assert t[0..] == t;
    PrefixedNone(Quoted(t));
    while p < |t|
      invariant 0 <= p <= |t| && buf.Valid()
      invariant buf.buffer == old(buf.buffer) || fresh(buf.buffer)
      invariant Quoted(t) == Prefixed(buf.Contents(), p, Quoted(t[p..]))
      decreases |t| - p
    {
      ghost var u, before, at := t[p..], buf.Contents(), p;
      QuotedOne(u);
      var piece, n := [], 1;
      if t[p] == '\"' {
        var none, s := buf.Release();
        return Text(s, p + 1);
      } else if t[p] != '\\' {
        n := PlainRun(t[p..]);
        piece := t[p..p + n];
        RunTaken(u, n);
        assert u[..n] == piece;
      } else if p + 1 < |t| && Escape(t[p + 1]) {
        piece, n := [Unescaped(t[p + 1])], 2;
      } else if p + 3 < |t| && (t[p + 1] == 'x' || t[p + 1] == 'X') && Digit(t[p + 2], 16) && Digit(t[p + 3], 16) {
        piece, n := HexChar(t[p + 2], t[p + 3]), 4;
      }
      assert u[n..] == t[p + n..];
      PrefixedTwice(before, at, piece, n, Quoted(t[p + n..]));
      buf.Append(piece);
      p := p + n;
    }
    QuotedNone();
    assert t[|t|..] == [];
    return Unclosed;
  }

  lemma {:induction false} PrefixedNone(r: Text)
    ensures Prefixed([], 0, r) == r
  {
    if r.Text? { assert [] + r.value == r.value; }
  }

  lemma {:induction false} QuotedNone()
    ensures Quoted([]) == Unclosed
  {
  }

  // The writer's loop over the characters of a string.
  method WriteString(s: string) returns (out: string)
    requires CString(s)
    ensures out == "\"" + WriteChars(s) + "\""
  {
    hide WriteChars;
    hide WriteChar;
    out := "\"";
    var p := 0;
    assert s[0..] == s;
    while p < |s|
      invariant 0 <= p <= |s|
      invariant "\"" + WriteChars(s) == out + WriteChars(s[p..])
    {
      ghost var before := out;
      WriteCharsOne(s[p..]);
      assert s[p..][1..] == s[p + 1..];
      out := WriteOne(out, s[p]);
      assert before + (WriteChar(s[p]) + WriteChars(s[p + 1..])) == out + WriteChars(s[p + 1..]);
      p := p + 1;
    }
    WriteCharsNone();
    assert s[|s|..] == [] && out + [] == out;
    out := out + "\"";
  }

  lemma {:induction false} WriteCharsOne(s: string)
    requires CString(s) && s != []
    ensures WriteChars(s) == WriteChar(s[0]) + WriteChars(s[1..])
  {
  }

  lemma {:induction false} WriteCharsNone()
    ensures WriteChars([]) == []
  {
  }

  method WriteOne(before: string, c: char) returns (out: string)
    requires c as int < 256
    ensures out == before + WriteChar(c)
  {
    if c == '\"' || c == '\\' {
      out := before + ['\\', c];
    } else if c == '\n' {
      out := before + "\\n";
    } else if c == '\r' {
      out := before + "\\r";
    } else if c == FORMFEED {
      out := before + "\\f";
    } else if c == '\t' {
      out := before + "\\t";
    } else if c >= ' ' {
      out := before + [c];
    } else {
      out := before + ("\\x" + [UpperHex(c as int / 16), UpperHex(c as int % 16)]);
    }
  }
}
