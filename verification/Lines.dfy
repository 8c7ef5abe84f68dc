/** Cutting a byte stream into lines. */
module Lines {
  import opened Wrappers
  import opened Framing

  // When a line cannot be decoded, extraction stops after it and takes up the lines behind it only
  // when more bytes come; so, unlike for frames, the pieces a stream comes in can matter. The
  // theorem says exactly for which streams they do not.

  const NEWLINE: Byte := 10

  // The length of the first line with its newline, or 0 if there is no whole line.
  function FirstLine(s: seq<Byte>): (k: nat)
    ensures k <= |s|
  {
    if s == [] then 0
    else if s[0] == NEWLINE then 1
    else
      var k := FirstLine(s[1..]);
      if k == 0 then 0 else k + 1
  }

  lemma {:induction false} FirstLineMeans(s: seq<Byte>)
    ensures var k := FirstLine(s);
      if k == 0 then NEWLINE !in s else s[k - 1] == NEWLINE && NEWLINE !in s[..k - 1]
  {
    if s != [] && s[0] != NEWLINE {
      FirstLineMeans(s[1..]);
      var k := FirstLine(s);
      if k == 0 { assert s == [s[0]] + s[1..]; } else { assert s[..k - 1] == [s[0]] + s[1..][..k - 2]; }
    }
  }

  // A line is everything up to and with the first byte 10.
  lemma {:induction false} LineIs(line: seq<Byte>, rest: seq<Byte>)
    requires 10 !in line
    ensures FirstLine(line + [10] + rest) == |line| + 1 && FirstLine(line) == 0
  {
    if line == [] {
      assert [] + [10] + rest == [10] + rest;
    } else {
      assert (line + [10] + rest)[0] == line[0] && (line + [10] + rest)[1..] == line[1..] + [10] + rest;
      LineIs(line[1..], rest);
    }
  }

  datatype Taken<+M> = Taken(msgs: seq<M>, used: nat)

  // LineCoder::Extract
  function TakeLines<M>(decode: Decoder<M>, s: seq<Byte>): (r: Taken<M>)
    ensures r.used <= |s|
    decreases |s|
  {
    var k := FirstLine(s);
    if k == 0 then Taken([], 0)
    else
      match decode(s[..k])
      case None => Taken([], k)
      case Some(m) =>
        var r := TakeLines(decode, s[k..]);
        Taken([m] + r.msgs, k + r.used)
  }

  // One step of the extraction.
  lemma TakeOneLine<M>(decode: Decoder<M>, s: seq<Byte>)
    ensures TakeLines(decode, s) ==
      var k := FirstLine(s);
      if k == 0 then Taken([], 0)
      else
        match decode(s[..k])
        case None => Taken([], k)
        case Some(m) => AfterLine(k, m, TakeLines(decode, s[k..]))
  {
  }

  // The lines are taken one after the other, each with its newline, up to one that cannot be
  // decoded, which is used up; what has no newline yet is left.
  lemma {:induction false} LineTaken<M>(decode: Decoder<M>, line: seq<Byte>, rest: seq<Byte>)
    requires 10 !in line
    ensures TakeLines(decode, line) == Taken([], 0)
    ensures TakeLines(decode, line + [10] + rest) ==
      match decode(line + [10])
      case None => Taken([], |line| + 1)
      case Some(m) =>
        Taken([m] + TakeLines(decode, rest).msgs, |line| + 1 + TakeLines(decode, rest).used)
  {
    var s := line + [10] + rest;
    LineIs(line, rest);
    assert s[..|line| + 1] == line + [10] && s[|line| + 1..] == rest;
    TakeOneLine(decode, s);
  }

  function AfterLine<M>(k: nat, m: M, r: Taken<M>): Taken<M> {
    Taken([m] + r.msgs, k + r.used)
  }

  datatype LineConn<+M> = LineConn(emitted: seq<M>, buffer: seq<Byte>)

  function FeedLines<M>(decode: Decoder<M>, c: LineConn<M>, chunk: seq<Byte>): LineConn<M> {
    var data := c.buffer + chunk;
    var r := TakeLines(decode, data);
    LineConn(c.emitted + r.msgs, data[r.used..])
  }

  function FeedAllLines<M>(decode: Decoder<M>, c: LineConn<M>, chunks: seq<seq<Byte>>): LineConn<M>
    decreases |chunks|
  {
    if chunks == [] then c else FeedAllLines(decode, FeedLines(decode, c, chunks[0]), chunks[1..])
  }

  // No line that cannot be decoded has another whole line behind it.
  ghost predicate Smooth<M>(decode: Decoder<M>, s: seq<Byte>)
    decreases |s|
  {
    var k := FirstLine(s);
    k == 0 || if decode(s[..k]).None? then FirstLine(s[k..]) == 0 else Smooth(decode, s[k..])
  }

  lemma SmoothOne<M>(decode: Decoder<M>, s: seq<Byte>)
    ensures Smooth(decode, s) <==>
      var k := FirstLine(s);
      k == 0 || if decode(s[..k]).None? then FirstLine(s[k..]) == 0 else Smooth(decode, s[k..])
  {
  }

  lemma {:induction false} FirstLineOfFront(a: seq<Byte>, b: seq<Byte>)
    requires FirstLine(a) > 0
    ensures FirstLine(a + b) == FirstLine(a)
    ensures (a + b)[..FirstLine(a)] == a[..FirstLine(a)] && (a + b)[FirstLine(a)..] == a[FirstLine(a)..] + b
  {
    assert (a + b)[1..] == a[1..] + b;
    if a[0] != NEWLINE { FirstLineOfFront(a[1..], b); }
  }

  // A whole line is still the first line with what follows cut off.
  lemma {:induction false} FirstLineOfCut(s: seq<Byte>, u: nat)
    requires 0 < FirstLine(s) <= u <= |s|
    ensures FirstLine(s[..u]) == FirstLine(s)
  {
    assert s[..u][1..] == s[1..][..u - 1];
    if s[0] != NEWLINE { FirstLineOfCut(s[1..], u - 1); }
  }

  // What comes of carrying on with what was left over and more bytes.
  function ResumeLines<M>(decode: Decoder<M>, a: seq<Byte>, b: seq<Byte>): Taken<M> {
    var r := TakeLines(decode, a);
    var rest := TakeLines(decode, a[r.used..] + b);
    Taken(r.msgs + rest.msgs, r.used + rest.used)
  }

  // Cutting a smooth stream anywhere changes nothing.
  lemma {:induction false} LinesMore<M>(decode: Decoder<M>, a: seq<Byte>, b: seq<Byte>)
    requires Smooth(decode, a + b)
    ensures Smooth(decode, a[TakeLines(decode, a).used..] + b)
    ensures TakeLines(decode, a + b) == ResumeLines(decode, a, b)
    decreases |a|
  {
    hide FirstLine;
    hide TakeLines;
    hide Smooth;
    var k := FirstLine(a);
    TakeOneLine(decode, a);
    if k == 0 {
      assert a[0..] == a;
      assert [] + TakeLines(decode, a + b).msgs == TakeLines(decode, a + b).msgs;
    } else {
      FirstLineOfFront(a, b);
      TakeOneLine(decode, a + b);
      SmoothOne(decode, a + b);
      if decode(a[..k]).Some? {
        LinesMore(decode, a[k..], b);
        var r := TakeLines(decode, a[k..]);
        var m := decode(a[..k]).value;
        var rest := TakeLines(decode, a[k..][r.used..] + b);
        assert a[k..][r.used..] == a[k + r.used..];
        assert [m] + (r.msgs + rest.msgs) == ([m] + r.msgs) + rest.msgs;
      } else {
        SmoothOne(decode, a[k..] + b);
        TakeOneLine(decode, a[k..] + b);
      }
    }
  }

  lemma {:induction false} SmoothChunks<M>(decode: Decoder<M>, c: LineConn<M>, chunks: seq<seq<Byte>>)
    requires chunks != [] && Smooth(decode, c.buffer + Concat(chunks))
    ensures FeedAllLines(decode, c, chunks) == FeedLines(decode, c, Concat(chunks))
    decreases |chunks|
  {
    hide TakeLines;
    hide Smooth;
    var first, rest := chunks[0], chunks[1..];
    var c1 := FeedLines(decode, c, first);
    if rest == [] {
      assert first + [] == first;
      assert FeedAllLines(decode, c1, rest) == c1;
    } else {
      var a, b := c.buffer + first, Concat(rest);
      assert c.buffer + Concat(chunks) == a + b;
      LinesMore(decode, a, b);
      SmoothChunks(decode, c1, rest);
      var r := TakeLines(decode, a);
      var t := TakeLines(decode, a[r.used..] + b);
      assert (c.emitted + r.msgs) + t.msgs == c.emitted + (r.msgs + t.msgs);
      assert (a + b)[r.used + t.used..] == (a[r.used..] + b)[t.used..];
    }
  }

  // In a stream that is not smooth: where extraction stops although a whole line follows.
  lemma {:induction false} StopsEarly<M>(decode: Decoder<M>, s: seq<Byte>) returns (u: nat)
    requires !Smooth(decode, s)
    ensures u <= |s| && TakeLines(decode, s).used == u && FirstLine(s[u..]) > 0
    ensures TakeLines(decode, s[..u]) == TakeLines(decode, s)
    decreases |s|
  {
    hide FirstLine;
    hide TakeLines;
    hide Smooth;
    var k := FirstLine(s);
    SmoothOne(decode, s);
    TakeOneLine(decode, s);
    if decode(s[..k]).None? {
      u := k;
      FirstLineOfCut(s, u);
      TakeOneLine(decode, s[..u]);
      assert s[..u][..k] == s[..k];
    } else {
      var v := StopsEarly(decode, s[k..]);
      u := k + v;
      assert s[k..][v..] == s[u..];
      FirstLineOfCut(s, u);
      TakeOneLine(decode, s[..u]);
      assert s[..u][..k] == s[..k] && s[..u][k..] == s[k..][..v];
    }
  }

  lemma {:induction false} TakesSomething<M>(decode: Decoder<M>, s: seq<Byte>)
    requires FirstLine(s) > 0
    ensures TakeLines(decode, s).used > 0
  {
  }

  ghost predicate CutsAgree<M>(decode: Decoder<M>, s: seq<Byte>) {
    forall chunks: seq<seq<Byte>> :: chunks != [] && Concat(chunks) == s ==>
      FeedAllLines(decode, LineConn([], []), chunks) == FeedLines(decode, LineConn([], []), s)
  }

  // Every way of cutting a stream leads to the same messages and the same bytes left over if
  // and only if the stream is smooth.
  lemma {:induction false} LinesIndependence<M>(decode: Decoder<M>, s: seq<Byte>)
    ensures CutsAgree(decode, s) <==> Smooth(decode, s)
  {
    hide TakeLines;
    hide Smooth;
    hide FirstLine;
    var c: LineConn<M> := LineConn([], []);
    assert c.buffer + s == s;
    if Smooth(decode, s) {
      forall chunks: seq<seq<Byte>> | chunks != [] && Concat(chunks) == s
        ensures FeedAllLines(decode, c, chunks) == FeedLines(decode, c, s)
      {
        SmoothChunks(decode, c, chunks);
      }
    } else {
      var u := StopsEarly(decode, s);
      CutsDiffer(decode, s, u);
      assert Concat([s[..u], s[u..]]) == s by {
        TwoChunks(decode, c, s[..u], s[u..]);
        assert s[..u] + s[u..] == s;
      }
    }
  }

  lemma {:induction false} CutsDiffer<M>(decode: Decoder<M>, s: seq<Byte>, u: nat)
    requires u <= |s| && TakeLines(decode, s).used == u && FirstLine(s[u..]) > 0
    requires TakeLines(decode, s[..u]) == TakeLines(decode, s)
    ensures FeedAllLines(decode, LineConn([], []), [s[..u], s[u..]]) != FeedLines(decode, LineConn([], []), s)
  {
    hide TakeLines;
    hide FirstLine;
    var c: LineConn<M> := LineConn([], []);
    var a, b := s[..u], s[u..];
    assert c.buffer + a == a && c.buffer + s == s;
    TwoChunks(decode, c, a, b);
    var c1 := FeedLines(decode, c, a);
    assert c1.buffer == [] && c1.buffer + b == b;
    TakesSomething(decode, b);
  }

  lemma {:induction false} TwoChunks<M>(decode: Decoder<M>, c: LineConn<M>, a: seq<Byte>, b: seq<Byte>)
    ensures FeedAllLines(decode, c, [a, b]) == FeedLines(decode, FeedLines(decode, c, a), b)
    ensures Concat([a, b]) == a + b
  {
    assert [a, b][1..] == [b];
    assert [b][1..] == [];
    var c1 := FeedLines(decode, c, a);
    assert FeedAllLines(decode, c1, [b]) == FeedLines(decode, c1, b);
    assert Concat([b]) == b + Concat([]) == b;
  }
}
