/** End-of-line normalization of a file that was read, against section 2.11 of XML 1.0. */
module XmlLines {
  const CR: char := '\r'
  const LF: char := '\n'
  const NUL: char := '\0'

  // Section 2.11: the pair CR LF, and any CR that LF does not follow, become one LF.
  function Normalized(s: string): string {
    if s == [] then []
    else if s[0] == CR && |s| > 1 && s[1] == LF then [LF] + Normalized(s[2..])
    else if s[0] == CR then [LF] + Normalized(s[1..])
    else [s[0]] + Normalized(s[1..])
  }

  // What stands before the first NUL.
  function Prefix(s: string): (p: string)
    ensures |p| <= |s| && p == s[..|p|] && NUL !in p && (|p| < |s| ==> s[|p|] == NUL)
  {
    if s == [] || s[0] == NUL then [] else [s[0]] + Prefix(s[1..])
  }

  // The loop of LoadFile over the bytes read.
  method Normalize(buf: string) returns (data: string)
    ensures data == Normalized(Prefix(buf))
  {
    hide Normalized;
    data := [];
    ghost var text := Prefix(buf);
    var lastPos, p := 0, 0;
    assert text[0..] == text;
    while p < |buf| && buf[p] != NUL
      invariant 0 <= lastPos <= p <= |text|
      invariant forall i :: lastPos <= i < p ==> text[i] != CR
      invariant Normalized(text) == data + Normalized(text[lastPos..])
      decreases |buf| - p
    {
      assert p < |text| && buf[p] == text[p];
      PartOf(buf, |text|, lastPos, p);
      if buf[p] == LF {
        LineEnds(text, lastPos, p, 1, data);
        assert buf[lastPos..p + 1] == text[lastPos..p] + [LF];
        data := data + buf[lastPos..p + 1];
        p := p + 1;
        lastPos := p;
      } else if buf[p] == CR {
        ghost var n := if p + 1 < |text| && text[p + 1] == LF then 2 else 1;
        LineEnds(text, lastPos, p, n, data);
        if p - lastPos > 0 {
          data := data + buf[lastPos..p];
        }
        data := data + [LF];
        if p + 1 < |buf| && buf[p + 1] == LF {
          assert n == 2;
          p := p + 2;
        } else {
          p := p + 1;
        }
        lastPos := p;
      } else {
        p := p + 1;
      }
    }
    assert p == |text|;
    PartOf(buf, |text|, lastPos, p);
    SpanKept(text[lastPos..], []);
    NormalizedNone();
    assert text[lastPos..] + [] == text[lastPos..] == buf[lastPos..p];
    if p - lastPos > 0 {
      data := data + buf[lastPos..p];
    }
  }

  lemma {:induction false} PartOf(buf: string, n: nat, i: nat, j: nat)
    requires i <= j <= n <= |buf|
    ensures buf[..n][i..j] == buf[i..j]
  {
  }

  lemma {:induction false} NormalizedNone()
    ensures Normalized([]) == []
  {
  }

  // A span without CR and the end of its line.
  lemma {:induction false} LineEnds(text: string, from: nat, p: nat, n: nat, data: string)
    requires from <= p < |text| && (forall i :: from <= i < p ==> text[i] != CR) && (text[p] == CR || text[p] == LF)
    requires n == if text[p] == CR && p + 1 < |text| && text[p + 1] == LF then 2 else 1
    ensures data + Normalized(text[from..]) == data + text[from..p] + [LF] + Normalized(text[p + n..])
    ensures data + Normalized(text[from..]) == data + (text[from..p] + [LF]) + Normalized(text[p + n..])
    ensures from == p ==> data + text[from..p] == data
  {
    hide Normalized;
    var span, rest := text[from..p], text[p..];
    assert text[from..] == span + rest;
    SpanKept(span, rest);
    NormalizedOne(rest);
    assert rest[n..] == text[p + n..];
    Regroup(data, span, [LF], Normalized(text[p + n..]));
  }

  lemma {:induction false} NormalizedOne(s: string)
    requires s != []
    ensures Normalized(s) ==
      if s[0] == CR && |s| > 1 && s[1] == LF then [LF] + Normalized(s[2..])
      else if s[0] == CR then [LF] + Normalized(s[1..])
      else [s[0]] + Normalized(s[1..])
  {
  }

  lemma {:induction false} Regroup(a: string, b: string, c: string, d: string)
    ensures a + (b + (c + d)) == (a + b + c) + d && a + (b + (c + d)) == (a + (b + c)) + d
  {
  }

  // Other characters stay.
  lemma {:induction false} SpanKept(span: string, rest: string)
    requires CR !in span
    ensures Normalized(span + rest) == span + Normalized(rest)
  {
    if span == [] {
      assert span + rest == rest;
    } else {
      assert (span + rest)[1..] == span[1..] + rest;
      SpanKept(span[1..], rest);
    }
  }

  lemma {:induction false} NoCarriageReturn(s: string)
    ensures CR !in Normalized(s)
  {
    if s != [] {
      if s[0] == CR && |s| > 1 && s[1] == LF { NoCarriageReturn(s[2..]); } else { NoCarriageReturn(s[1..]); }
    }
  }

  // Normalizing again changes nothing, and only texts without CR are left as they are.
  lemma {:induction false} FixedPoints(s: string)
    ensures Normalized(Normalized(s)) == Normalized(s)
    ensures Normalized(s) == s <==> CR !in s
  {
    NoCarriageReturn(s);
    SpanKept(Normalized(s), []);
    assert Normalized(s) + [] == Normalized(s);
    if CR !in s {
      SpanKept(s, []);
      assert s + [] == s;
    }
  }

  // ---------- the same in two passes ----------

  // Without every CR that LF follows.
  function Paired(s: string): string {
    if s == [] then []
    else if s[0] == CR && |s| > 1 && s[1] == LF then Paired(s[1..])
    else [s[0]] + Paired(s[1..])
  }

  lemma {:induction false} TwoPasses(s: string)
    ensures |Normalized(s)| == |Paired(s)|
    ensures forall i :: 0 <= i < |Normalized(s)| ==> Normalized(s)[i] == if Paired(s)[i] == CR then LF else Paired(s)[i]
  {
    if s != [] {
      if s[0] == CR && |s| > 1 && s[1] == LF {
        TwoPasses(s[2..]);
        assert Paired(s[1..]) == [LF] + Paired(s[1..][1..]) && s[1..][1..] == s[2..];
      } else {
        TwoPasses(s[1..]);
      }
    }
  }
}
