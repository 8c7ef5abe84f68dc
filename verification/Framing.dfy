/** Cutting a byte stream into messages. */
module Framing {
  import opened Wrappers

  // Frames are length-prefixed: a header of a fixed size, whose first four bytes give the length of
  // header and body together, and the body. Lines end in a newline. Bytes come in pieces of any
  // size; the theorems say that the pieces do not matter, and for lines exactly when.

  type Byte = b: int | 0 <= b < 256

  // ---------- length-prefixed frames ----------

  const MAXHEADLEN: int := 32

  // How an extraction ends: so many bytes were used up; a frame could not be decoded; or a frame
  // claims to be shorter than its own header, so that its body would have a negative length.
  datatype Outcome = Used(n: nat) | DecodeFailed | TooShort

  datatype Extracted<+M> = Extracted(msgs: seq<M>, outcome: Outcome)

  // ntohl of the first four bytes.
  function DeclaredLen(data: seq<Byte>): (n: nat)
    requires |data| >= 4
  {
    ((data[0] as int * 256 + data[1] as int) * 256 + data[2] as int) * 256 + data[3] as int
  }

  lemma DeclaredLenOfFront(a: seq<Byte>, b: seq<Byte>)
    requires |a| >= 4
    ensures DeclaredLen(a + b) == DeclaredLen(a)
  {
  }

  type Decoder<!M> = seq<Byte> -> Option<M>

  // Whether extraction waits for more bytes.
  predicate Waits(head: nat, data: seq<Byte>)
    requires head >= 4
  {
    |data| <= head || |data| < DeclaredLen(data)
  }

  // ICoder::Extract
  function Extract<M>(head: nat, decode: Decoder<M>, data: seq<Byte>): (r: Extracted<M>)
    requires 4 <= head < MAXHEADLEN
    ensures r.outcome.Used? ==> r.outcome.n <= |data|
    decreases |data|
  {
    if Waits(head, data) then Extracted([], Used(0))
    else
      var n := DeclaredLen(data);
      if n < head then Extracted([], TooShort)
      else
        match decode(data[head..n])
        case None => Extracted([], DecodeFailed)
        case Some(m) =>
          After(n, m, Extract(head, decode, data[n..]))
  }

  // ---------- what extraction means ----------

  // The bytes are a row of whole frames whose bodies decode to the messages.
  ghost predicate Frames<M>(head: nat, decode: Decoder<M>, bytes: seq<Byte>, msgs: seq<M>)
    requires head >= 4
    decreases |bytes|
  {
    if msgs == [] then bytes == []
    else
      && |bytes| >= head
      && head <= DeclaredLen(bytes) <= |bytes|
      && decode(bytes[head..DeclaredLen(bytes)]) == Some(msgs[0])
      && Frames(head, decode, bytes[DeclaredLen(bytes)..], msgs[1..])
  }

  // Where extraction stops: behind the last whole frame that could be taken.
  function StopsAt<M>(head: nat, decode: Decoder<M>, data: seq<Byte>): (n: nat)
    requires 4 <= head < MAXHEADLEN
    ensures n <= |data|
    decreases |data|
  {
    if Waits(head, data) then 0
    else
      var n := DeclaredLen(data);
      if n < head || decode(data[head..n]).None? then 0 else n + StopsAt(head, decode, data[n..])
  }

  // How the bytes go on there, for each way in which an extraction ends.
  predicate GoesOn<M>(head: nat, decode: Decoder<M>, rest: seq<Byte>, outcome: Outcome)
    requires head >= 4
  {
    match outcome
    case Used(_) => Waits(head, rest)
    case TooShort => !Waits(head, rest) && DeclaredLen(rest) < head
    case DecodeFailed =>
      !Waits(head, rest) && DeclaredLen(rest) >= head && decode(rest[head..DeclaredLen(rest)]).None?
  }

  // What lies in front of the stop is a row of frames with exactly the messages, and what is left
  // waits, or begins with the frame that could not be taken.
  lemma {:induction false} ExtractMeans<M>(head: nat, decode: Decoder<M>, data: seq<Byte>)
    requires 4 <= head < MAXHEADLEN
    ensures var r := Extract(head, decode, data);
      var n := StopsAt(head, decode, data);
      && (r.outcome.Used? ==> r.outcome.n == n)
      && Frames(head, decode, data[..n], r.msgs)
      && GoesOn(head, decode, data[n..], r.outcome)
    decreases |data|
  {
    hide DeclaredLen;
    if !Waits(head, data) && DeclaredLen(data) >= head && decode(data[head..DeclaredLen(data)]).Some? {
      FrameFirst(head, decode, data);
      ExtractMeans(head, decode, data[DeclaredLen(data)..]);
    } else {
      assert data[0..] == data;
    }
  }

  // A frame in front of the frames that follow it.
  lemma {:induction false} FrameFirst<M>(head: nat, decode: Decoder<M>, data: seq<Byte>)
    requires 4 <= head < MAXHEADLEN
    requires !Waits(head, data) && DeclaredLen(data) >= head && decode(data[head..DeclaredLen(data)]).Some?
    ensures var len := DeclaredLen(data);
      forall k: nat, msgs: seq<M> :: k <= |data| - len && Frames(head, decode, data[len..][..k], msgs) ==>
        && data[len..][k..] == data[len + k..]
        && Frames(head, decode, data[..len + k], [decode(data[head..len]).value] + msgs)
  {
    hide DeclaredLen;
    var len := DeclaredLen(data);
    forall k: nat, msgs: seq<M> | k <= |data| - len && Frames(head, decode, data[len..][..k], msgs)
      ensures data[len..][k..] == data[len + k..]
      ensures Frames(head, decode, data[..len + k], [decode(data[head..len]).value] + msgs)
    {
      var front := data[..len + k];
      DeclaredLenOfFront(front, data[len + k..]);
      assert front + data[len + k..] == data;
      assert front[head..len] == data[head..len] && front[len..] == data[len..][..k];
      assert ([decode(data[head..len]).value] + msgs)[1..] == msgs;
    }
  }

  lemma ExtractOne<M>(head: nat, decode: Decoder<M>, data: seq<Byte>)
    requires 4 <= head < MAXHEADLEN
    ensures Extract(head, decode, data) ==
      if Waits(head, data) then Extracted([], Used(0))
      else if DeclaredLen(data) < head then Extracted([], TooShort)
      else
        match decode(data[head..DeclaredLen(data)])
        case None => Extracted([], DecodeFailed)
        case Some(m) => After(DeclaredLen(data), m, Extract(head, decode, data[DeclaredLen(data)..]))
  {
    hide DeclaredLen;
  }

  // An extraction with one more message in front of it.
  function After<M>(n: nat, m: M, r: Extracted<M>): Extracted<M> {
    Extracted([m] + r.msgs, if r.outcome.Used? then Used(n + r.outcome.n) else r.outcome)
  }

  // What comes of carrying on with what an extraction left and more bytes.
  function Resume<M>(head: nat, decode: Decoder<M>, a: seq<Byte>, b: seq<Byte>): Extracted<M>
    requires 4 <= head < MAXHEADLEN
  {
    var r := Extract(head, decode, a);
    if r.outcome.Used? then
      var rest := Extract(head, decode, a[r.outcome.n..] + b);
      Extracted(r.msgs + rest.msgs, if rest.outcome.Used? then Used(r.outcome.n + rest.outcome.n) else rest.outcome)
    else r
  }

  // More bytes do not change what has been extracted, only carry on with it.
  lemma {:induction false} ExtractMore<M>(head: nat, decode: Decoder<M>, a: seq<Byte>, b: seq<Byte>)
    requires 4 <= head < MAXHEADLEN
    ensures Extract(head, decode, a + b) == Resume(head, decode, a, b)
    decreases |a|
  {
    hide DeclaredLen;
    hide Extract;
    ExtractOne(head, decode, a);
    if Waits(head, a) {
      assert a[0..] == a;
      assert [] + Extract(head, decode, a + b).msgs == Extract(head, decode, a + b).msgs;
    } else {
      var n := DeclaredLen(a);
      DeclaredLenOfFront(a, b);
      ExtractOne(head, decode, a + b);
      if n >= head {
        assert (a + b)[head..n] == a[head..n] && (a + b)[n..] == a[n..] + b;
        if decode(a[head..n]).Some? {
          var m := decode(a[head..n]).value;
          ExtractMore(head, decode, a[n..], b);
          var r := Extract(head, decode, a[n..]);
          if r.outcome.Used? {
            assert a[n..][r.outcome.n..] == a[n + r.outcome.n..];
            assert forall ms: seq<M> :: [m] + (r.msgs + ms) == ([m] + r.msgs) + ms;
          }
        }
      }
    }
  }

  // ---------- a connection ----------

  datatype Status = Open | Closed | Undefined

  datatype Conn<+M> = Conn(emitted: seq<M>, buffer: seq<Byte>, status: Status)

  function Fresh<M>(): Conn<M> {
    Conn([], [], Open)
  }

  // One receive: the new bytes join what was left over, and what can be extracted is.
  function Feed<M>(head: nat, decode: Decoder<M>, c: Conn<M>, chunk: seq<Byte>): Conn<M>
    requires 4 <= head < MAXHEADLEN
  {
    if c.status != Open then c
    else
      var data := c.buffer + chunk;
      var r := Extract(head, decode, data);
      match r.outcome
      case Used(n) => Conn(c.emitted + r.msgs, data[n..], Open)
      case DecodeFailed => Conn(c.emitted + r.msgs, data, Closed)
      case TooShort => Conn(c.emitted + r.msgs, data, Undefined)
  }

  function FeedAll<M>(head: nat, decode: Decoder<M>, c: Conn<M>, chunks: seq<seq<Byte>>): Conn<M>
    requires 4 <= head < MAXHEADLEN
    decreases |chunks|
  {
    if chunks == [] then c else FeedAll(head, decode, Feed(head, decode, c, chunks[0]), chunks[1..])
  }

  function Concat<T>(chunks: seq<seq<T>>): seq<T>
    decreases |chunks|
  {
    if chunks == [] then [] else chunks[0] + Concat(chunks[1..])
  }

  // The same messages and the same fate; while the connection is open, the same bytes left.
  ghost predicate SameConn<M>(a: Conn<M>, b: Conn<M>) {
    a.emitted == b.emitted && a.status == b.status && (a.status == Open ==> a.buffer == b.buffer)
  }

  lemma {:induction false} FeedTwice<M>(head: nat, decode: Decoder<M>, c: Conn<M>, a: seq<Byte>, b: seq<Byte>)
    requires 4 <= head < MAXHEADLEN
    ensures SameConn(Feed(head, decode, Feed(head, decode, c, a), b), Feed(head, decode, c, a + b))
  {
    hide Extract;
    if c.status == Open {
      var data := c.buffer + a;
      ExtractMore(head, decode, data, b);
      assert c.buffer + (a + b) == data + b;
      var r := Extract(head, decode, data);
      if r.outcome.Used? {
        var rest := Extract(head, decode, data[r.outcome.n..] + b);
        if rest.outcome.Used? {
          assert (data + b)[r.outcome.n + rest.outcome.n..] == (data[r.outcome.n..] + b)[rest.outcome.n..];
        }
      }
    }
  }

  lemma {:induction false} FeedAllSame<M>(head: nat, decode: Decoder<M>, a: Conn<M>, b: Conn<M>, chunks: seq<seq<Byte>>)
    requires 4 <= head < MAXHEADLEN && SameConn(a, b)
    ensures SameConn(FeedAll(head, decode, a, chunks), FeedAll(head, decode, b, chunks))
    decreases |chunks|
  {
    if chunks != [] {
      FeedAllSame(head, decode, Feed(head, decode, a, chunks[0]), Feed(head, decode, b, chunks[0]), chunks[1..]);
    }
  }

  // However a stream is cut into receives, the outcome is that of one receive of all of it.
  lemma {:induction false} ChunkIndependence<M>(head: nat, decode: Decoder<M>, c: Conn<M>, chunks: seq<seq<Byte>>)
    requires 4 <= head < MAXHEADLEN && chunks != []
    ensures SameConn(FeedAll(head, decode, c, chunks), Feed(head, decode, c, Concat(chunks)))
    decreases |chunks|
  {
    var first, rest := chunks[0], chunks[1..];
    var c1 := Feed(head, decode, c, first);
    if rest == [] {
      assert FeedAll(head, decode, c1, rest) == c1;
      assert first + [] == first;
    } else {
      ChunkIndependence(head, decode, c1, rest);
      FeedTwice(head, decode, c, first, Concat(rest));
    }
  }

  // The bytes received are the frames emitted and then, while the connection is open, the buffer,
  // which waits; once it is closed, the frame that could not be taken.
  lemma {:induction false} BytesAccounted<M>(head: nat, decode: Decoder<M>, chunks: seq<seq<Byte>>)
    requires 4 <= head < MAXHEADLEN
    ensures Accounted(head, decode, Concat(chunks), FeedAll(head, decode, Fresh(), chunks))
  {
    hide Extract;
    hide Feed;
    hide Frames;
    hide Waits;
    hide Concat;
    hide StopsAt;
    if chunks == [] {
      NothingFed(head, decode);
    } else {
      ChunkIndependence(head, decode, Fresh(), chunks);
      OnePass(head, decode, Concat(chunks));
    }
  }

  ghost predicate Accounted<M>(head: nat, decode: Decoder<M>, s: seq<Byte>, c: Conn<M>)
    requires 4 <= head < MAXHEADLEN
  {
    var n := StopsAt(head, decode, s);
    && Frames(head, decode, s[..n], c.emitted)
    && match c.status
       case Open => s[n..] == c.buffer && GoesOn(head, decode, s[n..], Used(n))
       case Closed => GoesOn(head, decode, s[n..], DecodeFailed)
       case Undefined => GoesOn(head, decode, s[n..], TooShort)
  }

  lemma {:induction false} NothingFed<M>(head: nat, decode: Decoder<M>)
    requires 4 <= head < MAXHEADLEN
    ensures Concat<Byte>([]) == [] && StopsAt(head, decode, []) == 0
    ensures Frames<M>(head, decode, [], []) && Waits(head, [])
  {
  }

  // The whole stream at once.
  lemma {:induction false} OnePass<M>(head: nat, decode: Decoder<M>, s: seq<Byte>)
    requires 4 <= head < MAXHEADLEN
    ensures Accounted(head, decode, s, Feed(head, decode, Fresh(), s))
  {
    hide Extract;
    hide Frames;
    hide Waits;
    hide StopsAt;
    ExtractMeans(head, decode, s);
    var r := Extract(head, decode, s);
    assert [] + r.msgs == r.msgs;
    assert Fresh<M>().buffer + s == s;
  }

  // ---------- what the encoder sends ----------

  // JsonCoder::Encode with its four-byte header, for a body whose length fits the header.
  function Frame(body: seq<Byte>): (f: seq<Byte>)
    requires |body| + 4 < 0x1_0000_0000
    ensures |f| == |body| + 4 && DeclaredLen(f) == |f| && f[4..] == body
  {
    HeaderDigits(|body| + 4);
    Header(|body| + 4) + body
  }

  // A length as htonl lays it out.
  function Header(n: nat): (h: seq<Byte>)
    requires n < 0x1_0000_0000
    ensures |h| == 4
  {
    [n / 0x100_0000, n / 0x1_0000 % 256, n / 256 % 256, n % 256]
  }

  lemma {:induction false} HeaderDigits(n: nat)
    requires n < 0x1_0000_0000
    ensures forall body :: DeclaredLen(Header(n) + body) == n
  {
    var a, b := n / 256, n / 0x1_0000;
    assert b == a / 256 && n / 0x100_0000 == b / 256;
    assert n == a * 256 + n % 256 && a == b * 256 + a % 256 && b == b / 256 * 256 + b % 256;
  }

  // The most significant byte comes first.
  lemma {:induction false} NetworkOrder(body: seq<Byte>)
    ensures Header(0x0102_0304) == [1, 2, 3, 4] && DeclaredLen([1, 2, 3, 4] + body) == 0x0102_0304
    ensures Header(258) == [0, 0, 1, 2] && DeclaredLen([0, 0, 1, 2] + body) == 258
  {
  }

  ghost predicate Sendable(bodies: seq<seq<Byte>>) {
    forall i :: 0 <= i < |bodies| ==> |bodies[i]| + 4 < 0x1_0000_0000
  }

  function Stream(bodies: seq<seq<Byte>>): seq<Byte>
    requires Sendable(bodies)
    decreases |bodies|
  {
    if bodies == [] then [] else Frame(bodies[0]) + Stream(bodies[1..])
  }

  lemma StreamLonger(bodies: seq<seq<Byte>>)
    requires Sendable(bodies)
    ensures bodies != [] ==> |Stream(bodies)| >= 4
  {
  }

  const Verbatim: Decoder<seq<Byte>> := b => Some(b)

  lemma {:induction false} TakeOne(body: seq<Byte>, rest: seq<Byte>)
    requires |body| + 4 < 0x1_0000_0000
    ensures Extract(4, Verbatim, Frame(body) + rest) ==
      if |body| + |rest| == 0 then Extracted([], Used(0))
      else After(|body| + 4, body, Extract(4, Verbatim, rest))
  {
    hide DeclaredLen;
    hide Extract;
    var f := Frame(body);
    var s := f + rest;
    DeclaredLenOfFront(f, rest);
    ExtractOne(4, Verbatim, s);
    assert s[4..|f|] == body && s[|f|..] == rest;
  }

  // What was framed and sent comes out again, body by body: all of it, except that an empty body
  // at the very end is held back until something follows it.
  lemma {:induction false} StreamRoundTrip(bodies: seq<seq<Byte>>)
    requires Sendable(bodies)
    ensures Extract(4, Verbatim, Stream(bodies)) ==
      if bodies != [] && bodies[|bodies| - 1] == [] then
        Extracted(bodies[..|bodies| - 1], Used(|Stream(bodies)| - 4))
      else Extracted(bodies, Used(|Stream(bodies)|))
    decreases |bodies|
  {
    hide DeclaredLen;
    hide Extract;
    hide Frame;
    if bodies == [] {
      ExtractOne(4, Verbatim, []);
    } else {
      var rest := bodies[1..];
      TakeOne(bodies[0], Stream(rest));
      StreamRoundTrip(rest);
      StreamLonger(rest);
      FirstAndRest(bodies);
    }
  }

  lemma {:induction false} FirstAndRest(bodies: seq<seq<Byte>>)
    requires bodies != []
    ensures var rest := bodies[1..];
      && [bodies[0]] + rest == bodies
      && (rest == [] ==> bodies[..|bodies| - 1] == [])
      && (rest != [] ==>
            rest[|rest| - 1] == bodies[|bodies| - 1] && [bodies[0]] + rest[..|rest| - 1] == bodies[..|bodies| - 1])
  {
  }
}
