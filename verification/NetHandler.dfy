/** The buffers of a connection and the event handler that moves bytes through them. */
module NetHandler {
  import opened Wrappers
  import opened Framing
  import opened Lines

  // What is received goes through the receive buffer to the coder, what is sent through the send
  // buffer to the socket. The socket is the only thing not modelled; each of its calls is given by
  // what it returns.

  // Where bytes to be copied come from: an offset in the block itself, or somewhere else.
  datatype Source = Inside(offset: nat) | Outside(data: seq<Byte>)

  class MemBlock {
    // _begin is the first element of the block and _blockEnd its end; _end is kept as an offset.
    var block: array<Byte>
    var end: nat

    ghost predicate Valid()
      reads this
    {
      end <= block.Length
    }

    ghost function Contents(): seq<Byte>
      reads this, block
      requires Valid()
    {
      block[..end]
    }

    constructor (size: nat)
      ensures Valid() && Contents() == [] && fresh(block) && block.Length == size
    {
      block := new Byte[size](_ => 0);
      end := 0;
    }

    // Shrinks to the size, or makes room for it; never grows the contents.
    method Resize(size: nat)
      requires Valid()
      modifies this, block
      ensures Valid() && block.Length >= size && (block == old(block) || fresh(block))
      ensures block.Length >= old(block.Length)
      ensures Contents() ==
        if size <= old(block.Length) && size < |old(Contents())| then old(Contents())[..size] else old(Contents())
    {
      if size <= block.Length {
        if size < end { end := size; }
        return;
      }
      var tmp := new MemBlock(size);
      tmp.Append(block, end);
      block, end := tmp.block, tmp.end;
    }

    // Append from another block, as Resize uses it.
    method Append(src: array<Byte>, n: nat)
      requires Valid() && n <= src.Length && end + n <= block.Length && src != block
      modifies this, block
      ensures Valid() && block == old(block)
      ensures Contents() == old(Contents()) + old(src[..n])
    {
      var i := 0;
      while i < n
        invariant 0 <= i <= n && end == old(end) && block == old(block)
        invariant block[..end] == old(Contents())
        invariant forall j :: 0 <= j < i ==> block[end + j] == old(src[j])
        invariant src[..] == old(src[..])
      {
        block[end + i] := src[i];
        i := i + 1;
      }
      ghost var before := old(Contents());
      end := end + n;
      ghost var added := old(src[..n]);
      forall j | 0 <= j < n
        ensures block[|before| + j] == added[j]
      {
      }
      assert block[..end] == before + added;
    }

    // Copies bytes to an offset, growing the contents if they reach past the end. A source
    // inside the block is moved as memmove does, also when the block has to be replaced first.
    method Copy(dst: nat, src: Source, n: nat) returns (ret: int)
      requires Valid()
      requires match src case Inside(off) => off + n <= end case Outside(data) => |data| == n
      modifies this, block
      ensures Valid() && (block == old(block) || fresh(block))
      ensures ret == if dst > old(end) then -1 else 0
      ensures ret == -1 ==> Contents() == old(Contents())
      ensures ret == 0 ==> Contents() == Spliced(old(Contents()), dst, old(Bytes(src, n)))
    {
      hide Spliced;
      hide Overwritten;
      if dst > end { return -1; }
      ghost var before, bytes := Contents(), Bytes(src, n);
      var destSize := dst + n;
      var incSize := if destSize > end then destSize - end else 0;
      if destSize > block.Length { Resize(destSize); }
      ghost var all := block[..];
      PrefixOfAll(block, end);
      assert Bytes(src, n) == bytes;
      Overwrite(dst, src, n);
      end := end + incSize;
      SplicedFront(all, before, dst, bytes, end);
      PrefixOfAll(block, end);
      return 0;
    }

    // Bytes moved or copied to a place in the block that has room for them.
    method Overwrite(dst: nat, src: Source, n: nat)
      requires Valid() && dst + n <= block.Length
      requires match src case Inside(off) => off + n <= end case Outside(data) => |data| == n
      modifies block
      ensures block[..] == Overwritten(old(block[..]), dst, old(Bytes(src, n)))
    {
      match src {
        case Inside(off) => PartOfPrefix(block, end, off, n); Memmove(block, dst, off, n);
        case Outside(data) => Memcpy(block, dst, data);
      }
    }

    ghost function Bytes(src: Source, n: nat): seq<Byte>
      reads this, block
      requires Valid()
      requires match src case Inside(off) => off + n <= end case Outside(data) => |data| == n
    {
      match src
      case Inside(off) => Contents()[off..off + n]
      case Outside(data) => data
    }

    method AddSpace(n: nat) returns (ret: int)
      requires Valid()
      modifies this
      ensures Valid() && block == old(block)
      ensures if old(end) + n > block.Length then ret == -1 && end == old(end) else ret == 0 && end == old(end) + n
    {
      if n > block.Length - end { return -1; }
      end := end + n;
      return 0;
    }

    method ReduceSpace(n: nat) returns (ret: int)
      requires Valid()
      modifies this
      ensures Valid() && block == old(block)
      ensures if n > old(end) then ret == -1 && end == old(end) else ret == 0 && end == old(end) - n
    {
      if n > end { return -1; }
      end := end - n;
      return 0;
    }
  }

  // The contents with bytes written over them from an offset on, which may reach past the end.
  function Spliced(s: seq<Byte>, dst: nat, bytes: seq<Byte>): seq<Byte>
    requires dst <= |s|
  {
    s[..dst] + bytes + (if dst + |bytes| < |s| then s[dst + |bytes|..] else [])
  }

  // The same within a block, where the bytes must fit.
  function Overwritten(s: seq<Byte>, dst: nat, bytes: seq<Byte>): seq<Byte>
    requires dst + |bytes| <= |s|
  {
    s[..dst] + bytes + s[dst + |bytes|..]
  }

  lemma {:induction false} PartOfPrefix(a: array<Byte>, end: nat, off: nat, n: nat)
    requires off + n <= end <= a.Length
    ensures a[..end][off..off + n] == a[off..off + n]
  {
  }

  lemma {:induction false} PrefixOfAll(a: array<Byte>, n: nat)
    requires n <= a.Length
    ensures a[..][..n] == a[..n]
  {
  }

  lemma {:induction false} SplicedFront(all: seq<Byte>, before: seq<Byte>, dst: nat, bytes: seq<Byte>, end: nat)
    requires |before| <= |all| && all[..|before|] == before && dst <= |before| && dst + |bytes| <= |all|
    requires end == if dst + |bytes| > |before| then dst + |bytes| else |before|
    ensures end <= |all| == |Overwritten(all, dst, bytes)|
    ensures Overwritten(all, dst, bytes)[..end] == Spliced(before, dst, bytes)
  {
  }

  lemma {:induction false} OverwrittenIs(s: seq<Byte>, t: seq<Byte>, dst: nat, bytes: seq<Byte>)
    requires dst + |bytes| <= |s| == |t|
    requires forall j :: 0 <= j < |s| ==> t[j] == if dst <= j < dst + |bytes| then bytes[j - dst] else s[j]
    ensures t == Overwritten(s, dst, bytes)
  {
  }

  method Memcpy(a: array<Byte>, dst: nat, data: seq<Byte>)
    requires dst + |data| <= a.Length
    modifies a
    ensures a[..] == Overwritten(old(a[..]), dst, data)
  {
    ghost var all := a[..];
    var i := 0;
    while i < |data|
      invariant 0 <= i <= |data|
      invariant forall j :: 0 <= j < a.Length ==> a[j] == if dst <= j < dst + i then data[j - dst] else all[j]
    {
      a[dst + i] := data[i];
      i := i + 1;
    }
    OverwrittenIs(all, a[..], dst, data);
  }

  // memmove: overlapping bytes are moved in the direction that does not overtake them.
  method Memmove(a: array<Byte>, dst: nat, src: nat, n: nat)
    requires dst + n <= a.Length && src + n <= a.Length
    modifies a
    ensures a[..] == Overwritten(old(a[..]), dst, old(a[src..src + n]))
  {
    ghost var all := a[..];
    ghost var bytes := all[src..src + n];
    if dst <= src {
      var i := 0;
      while i < n
        invariant 0 <= i <= n
        invariant forall j :: 0 <= j < a.Length ==> a[j] == if dst <= j < dst + i then bytes[j - dst] else all[j]
      {
        a[dst + i] := a[src + i];
        i := i + 1;
      }
    } else {
      var i := n;
      while i > 0
        invariant 0 <= i <= n
        invariant forall j :: 0 <= j < a.Length ==> a[j] == if dst + i <= j < dst + n then bytes[j - dst] else all[j]
      {
        i := i - 1;
        a[dst + i] := a[src + i];
      }
    }
    OverwrittenIs(all, a[..], dst, bytes);
  }

  // ---------- the coders' loops ----------

  // ICoder::Extract over the first len bytes of a block.
  method ExtractFrames<M>(head: nat, decode: Decoder<M>, data: array<Byte>, len: nat) returns (msgs: seq<M>, outcome: Outcome)
    requires 4 <= head < MAXHEADLEN && len <= data.Length
    ensures Extracted(msgs, outcome) == Extract(head, decode, data[..len])
  {
    hide Extract;
    hide DeclaredLen;
    ghost var all := data[..len];
    var ptr, left, used := 0, len, 0;
    msgs := [];
    assert all[0..] == all;
    while true
      invariant ptr == used && used + left == len && 0 <= left
      invariant Extract(head, decode, all) == Before(msgs, used, Extract(head, decode, all[ptr..]))
      decreases left
    {
      ghost var rest := all[ptr..];
      ExtractOne(head, decode, rest);
      if left <= head {
        return msgs, Used(used);
      }
      PartOf(data[..], len, ptr, ptr + head);
      var bodyLen := DeclaredLen(data[ptr..ptr + head]);
      HeaderHere(all, ptr, head);
      if left < bodyLen {
        return msgs, Used(used);
      }
      if bodyLen < head {
        return msgs, TooShort;
      }
      SliceOfRest(all, ptr, head, bodyLen);
      PartOf(data[..], len, ptr + head, ptr + bodyLen);
      var m := decode(data[ptr + head..ptr + bodyLen]);
      if m.None? {
        return msgs, DecodeFailed;
      }
      RestOfRest(all, ptr, bodyLen);
      BeforeAfter(msgs, used, bodyLen, m.value, Extract(head, decode, rest[bodyLen..]));
      msgs := msgs + [m.value];
      ptr := ptr + bodyLen;
      left := left - bodyLen;
      used := used + bodyLen;
    }
  }

  // An extraction with messages and bytes in front of it.
  ghost function Before<M>(msgs: seq<M>, used: nat, r: Extracted<M>): Extracted<M> {
    Extracted(msgs + r.msgs, if r.outcome.Used? then Used(used + r.outcome.n) else r.outcome)
  }

  lemma BeforeAfter<M>(msgs: seq<M>, used: nat, n: nat, m: M, r: Extracted<M>)
    ensures Before(msgs, used, After(n, m, r)) == Before(msgs + [m], used + n, r)
  {
    assert msgs + ([m] + r.msgs) == (msgs + [m]) + r.msgs;
  }

  lemma SliceOfRest(s: seq<Byte>, from: nat, i: nat, j: nat)
    requires i <= j && from + j <= |s|
    ensures s[from..][i..j] == s[from + i..from + j]
  {
  }

  lemma RestOfRest(s: seq<Byte>, from: nat, i: nat)
    requires from + i <= |s|
    ensures s[from..][i..] == s[from + i..]
  {
  }

  lemma {:induction false} HeaderHere(s: seq<Byte>, from: nat, head: nat)
    requires 4 <= head && from + head <= |s|
    ensures DeclaredLen(s[from..from + head]) == DeclaredLen(s[from..])
  {
    hide DeclaredLen;
    DeclaredLenOfFront(s[from..from + head], s[from + head..]);
    assert s[from..from + head] + s[from + head..] == s[from..];
  }

  // LineCoder::Extract
  method ExtractLines<M>(decode: Decoder<M>, data: array<Byte>, len: nat) returns (msgs: seq<M>, used: nat)
    requires len <= data.Length
    ensures Taken(msgs, used) == TakeLines(decode, data[..len])
  {
    hide TakeLines;
    ghost var all := data[..len];
    msgs, used := [], 0;
    NothingFirst(TakeLines(decode, all));
    assert all[0..] == all;
    var i := 0;
    while i < len
      invariant used <= i <= len && NEWLINE !in all[used..i]
      invariant TakeLines(decode, all) == LinesFirst(msgs, used, TakeLines(decode, all[used..]))
    {
      if data[i] == NEWLINE {
        LineStep(decode, all, used, i, msgs);
        PartOf(data[..], len, used, i + 1);
        var m := decode(data[used..i + 1]);
        used := i + 1;
        if m.None? { return; }
        msgs := msgs + [m.value];
      } else {
        NoNewlineYet(all, used, i);
      }
      i := i + 1;
    }
    NoLine(all[used..]);
    TakeOneLine(decode, all[used..]);
  }

  lemma {:induction false} NoNewlineYet(s: seq<Byte>, used: nat, i: nat)
    requires used <= i < |s| && NEWLINE !in s[used..i] && s[i] != NEWLINE
    ensures NEWLINE !in s[used..i + 1]
  {
    assert s[used..i + 1] == s[used..i] + [s[i]];
  }

  lemma {:induction false} PartOf(s: seq<Byte>, n: nat, i: nat, j: nat)
    requires i <= j <= n <= |s|
    ensures s[..n][i..j] == s[i..j]
  {
  }

  // Lines that were taken in front of others.
  ghost function LinesFirst<M>(msgs: seq<M>, used: nat, r: Taken<M>): Taken<M> {
    Taken(msgs + r.msgs, used + r.used)
  }

  lemma {:induction false} NothingFirst<M>(r: Taken<M>)
    ensures LinesFirst([], 0, r) == r
  {
    assert [] + r.msgs == r.msgs;
  }

  // The line that ends at i.
  lemma {:induction false} LineStep<M>(decode: Decoder<M>, all: seq<Byte>, used: nat, i: nat, msgs: seq<M>)
    requires used <= i < |all| && all[i] == NEWLINE && NEWLINE !in all[used..i]
    ensures LinesFirst(msgs, used, TakeLines(decode, all[used..])) ==
      match decode(all[used..i + 1])
      case None => Taken(msgs, i + 1)
      case Some(m) => LinesFirst(msgs + [m], i + 1, TakeLines(decode, all[i + 1..]))
  {
    hide TakeLines;
    var rest, k := all[used..], i - used + 1;
    assert rest[..k - 1] == all[used..i];
    LineEndsAt(rest, k);
    TakeOneLine(decode, rest);
    assert rest[..k] == all[used..i + 1] && rest[k..] == all[i + 1..];
    var m, r := decode(all[used..i + 1]), TakeLines(decode, all[i + 1..]);
    if m.Some? {
      assert msgs + ([m.value] + r.msgs) == (msgs + [m.value]) + r.msgs;
    } else {
      assert msgs + [] == msgs;
    }
  }

  lemma {:induction false} LineEndsAt(s: seq<Byte>, k: nat)
    requires 0 < k <= |s| && s[k - 1] == NEWLINE && NEWLINE !in s[..k - 1]
    ensures FirstLine(s) == k
  {
    if k > 1 {
      assert s[..k - 1][0] == s[0];
      assert s[1..][..k - 2] == s[..k - 1][1..];
      LineEndsAt(s[1..], k - 1);
    }
  }

  lemma {:induction false} NoLine(s: seq<Byte>)
    requires NEWLINE !in s
    ensures FirstLine(s) == 0
  {
    if s != [] { NoLine(s[1..]); }
  }

  // ---------- the event handler ----------

  const RECV_SIZE: int := 16384

  // What recv and send on the connection's socket can come to.
  datatype Received = Data(bytes: seq<Byte>) | PeerClosed | RecvInterrupted | RecvFailed

  datatype Sent = Wrote(n: nat) | WroteNothing | SendInterrupted | WouldBlock | SendFailed

  class Handler<M(0)> {
    const head: nat
    const decode: Decoder<M>
    const recvBuffer: MemBlock
    const sendBuffer: MemBlock
    // The messages given to the extraction callback, and the bytes given to the socket, so far.
    var emitted: seq<M>
    var wire: seq<Byte>
    var status: Status
    // All the data that Send was ever called with.
    ghost var sent: seq<Byte>

    // In every run of sends and partial writes, what the socket was given and what is waiting
    // make up all the data sent, in order.
    ghost predicate Valid()
      reads this, recvBuffer, sendBuffer, sendBuffer.block
    {
      && 4 <= head < MAXHEADLEN
      && recvBuffer != sendBuffer && recvBuffer.block != sendBuffer.block
      && recvBuffer.Valid() && sendBuffer.Valid()
      && wire + sendBuffer.Contents() == sent
    }

    ghost function TheConn(): Conn<M>
      reads this, recvBuffer, recvBuffer.block
      requires recvBuffer.Valid()
    {
      Conn(emitted, recvBuffer.Contents(), status)
    }

    constructor (head: nat, decode: Decoder<M>)
      requires 4 <= head < MAXHEADLEN
      ensures Valid() && TheConn() == Fresh() && sent == []
      ensures this.head == head && this.decode == decode
      ensures fresh(recvBuffer) && fresh(sendBuffer) && fresh(recvBuffer.block) && fresh(sendBuffer.block)
    {
      this.head := head;
      this.decode := decode;
      recvBuffer := new MemBlock(1024);
      sendBuffer := new MemBlock(1024);
      emitted, wire, status, sent := [], [], Open, [];
    }

    // A receive event: the connection moves on by the bytes received, as Feed says.
    method HandleInput(r: Received, registers: bool)
      requires Valid() && status == Open
      requires r.Data? ==> 0 < |r.bytes| <= RECV_SIZE
      modifies this, recvBuffer, recvBuffer.block
      ensures Valid() && wire == old(wire) && sent == old(sent) && (recvBuffer.block == old(recvBuffer.block) || fresh(recvBuffer.block))
      ensures r.Data? ==>
        var c := Feed(head, decode, old(TheConn()), r.bytes);
        TheConn() == if c.status == Open && !registers then c.(status := Closed) else c
      ensures r == RecvInterrupted ==> TheConn() == old(TheConn())
      ensures r == PeerClosed || r == RecvFailed ==> TheConn() == old(TheConn()).(status := Closed)
    {
      hide Extract;
      ghost var before := recvBuffer.Contents();
      var pos := recvBuffer.end;
      recvBuffer.Resize(pos + RECV_SIZE);
      match r {
        case RecvInterrupted => return;
        case PeerClosed => status := Closed;
        case RecvFailed => status := Closed;
        case Data(bytes) =>
          TakeIn(recvBuffer, bytes);
          ExtractAll(registers);
      }
    }

    // The extraction from the receive buffer, and what follows from how it ends.
    method ExtractAll(registers: bool)
      requires Valid() && status == Open
      modifies this, recvBuffer, recvBuffer.block
      ensures Valid() && wire == old(wire) && sent == old(sent) && (recvBuffer.block == old(recvBuffer.block) || fresh(recvBuffer.block))
      ensures var data := old(recvBuffer.Contents()); var r := Extract(head, decode, data);
        TheConn() ==
        match r.outcome
        case Used(n) => Conn(old(emitted) + r.msgs, data[n..], if registers then Open else Closed)
        case DecodeFailed => Conn(old(emitted) + r.msgs, data, Closed)
        case TooShort => Conn(old(emitted) + r.msgs, data, Undefined)
    {
      hide Extract;
      var msgs, outcome := ExtractFrames(head, decode, recvBuffer.block, recvBuffer.end);
      emitted := emitted + msgs;
      match outcome {
        case DecodeFailed => status := Closed;
        case TooShort => status := Undefined;
        case Used(used) =>
          Consume(recvBuffer, used);
          if !registers { status := Closed; }
      }
    }

    // A write event: what the socket takes leaves the send buffer, the rest moves up. A write of
    // nothing or an error closes the connection, and so does a failure to register for another
    // write where one is needed; an interrupted write changes nothing.
    method HandleOutput(r: Sent, registers: bool)
      requires Valid()
      requires r.Wrote? ==> 0 < r.n <= sendBuffer.end
      modifies this, sendBuffer, sendBuffer.block
      ensures Valid() && emitted == old(emitted) && (sendBuffer.block == old(sendBuffer.block) || fresh(sendBuffer.block))
      ensures sent == old(sent)
      ensures wire == old(wire) + (if old(sendBuffer.end) > 0 && r.Wrote? then old(sendBuffer.Contents()[..r.n]) else [])
      ensures status ==
        if old(sendBuffer.end) > 0 &&
           (r.WroteNothing? || r.SendFailed? || (!registers && (r.WouldBlock? || (r.Wrote? && r.n < old(sendBuffer.end)))))
        then Closed else old(status)
    {
      if sendBuffer.end <= 0 { return; }
      ghost var before := sendBuffer.Contents();
      match r {
        case SendInterrupted => return;
        case WroteNothing => status := Closed;
        case SendFailed => status := Closed;
        case WouldBlock => if !registers { status := Closed; }
        case Wrote(n) =>
          PartOf(sendBuffer.block[..], sendBuffer.end, 0, n);
          wire := wire + sendBuffer.block[..n];
          DropWritten(sendBuffer, n);
          WrittenAndLeft(old(wire), before, n);
          if sendBuffer.end != 0 && !registers { status := Closed; }
      }
    }

    // Appends to the send buffer and tries to write at once.
    method Send(data: seq<Byte>, r: Sent, registers: bool)
      requires Valid()
      requires r.Wrote? ==> 0 < r.n <= sendBuffer.end + |data|
      modifies this, sendBuffer, sendBuffer.block
      ensures Valid() && emitted == old(emitted) && (sendBuffer.block == old(sendBuffer.block) || fresh(sendBuffer.block))
      ensures sent == old(sent) + data
      ensures wire == old(wire)
        + (if old(sendBuffer.end) + |data| > 0 && r.Wrote? then old(sendBuffer.Contents() + data)[..r.n] else [])
      ensures status ==
        if old(sendBuffer.end) + |data| > 0 &&
           (r.WroteNothing? || r.SendFailed? ||
            (!registers && (r.WouldBlock? || (r.Wrote? && r.n < old(sendBuffer.end) + |data|))))
        then Closed else old(status)
    {
      ghost var before := sendBuffer.Contents();
      var _ := sendBuffer.Copy(sendBuffer.end, Outside(data), |data|);
      assert sendBuffer.Contents() == before + data;
      assert wire + (before + data) == sent + data;
      sent := sent + data;
      HandleOutput(r, registers);
    }
  }

  lemma {:induction false} WrittenAndLeft(wire: seq<Byte>, before: seq<Byte>, n: nat)
    requires n <= |before|
    ensures (wire + before[..n]) + before[n..] == wire + before
  {
    assert before[..n] + before[n..] == before;
  }

  // What recv writes behind the contents of a buffer with enough room.
  method TakeIn(b: MemBlock, bytes: seq<Byte>)
    requires b.Valid() && b.end + |bytes| <= b.block.Length
    modifies b, b.block
    ensures b.Valid() && b.block == old(b.block) && b.Contents() == old(b.Contents()) + bytes
  {
    ghost var before := b.Contents();
    var pos := b.end;
    Memcpy(b.block, pos, bytes);
    assert b.block[..pos] == before;
    var _ := b.AddSpace(|bytes|);
    assert b.Contents() == before + bytes;
  }

  // Moves what is left to the front of the receive buffer.
  method Consume(b: MemBlock, used: nat)
    requires b.Valid() && used <= b.end
    modifies b, b.block
    ensures b.Valid() && (b.block == old(b.block) || fresh(b.block))
    ensures b.Contents() == old(b.Contents()[used..])
  {
    ghost var before := b.Contents();
    if used > 0 {
      var size := b.end - used;
      var _ := b.Copy(0, Inside(used), size);
      assert b.Contents()[..size] == before[used..];
      var _ := b.ReduceSpace(used);
    }
  }

  // Takes what has been written off the front of the send buffer.
  method DropWritten(b: MemBlock, n: nat)
    requires b.Valid() && n <= b.end
    modifies b, b.block
    ensures b.Valid() && (b.block == old(b.block) || fresh(b.block))
    ensures b.Contents() == old(b.Contents()[n..])
  {
    ghost var before := b.Contents();
    if n == b.end {
      b.end := 0;
    } else {
      var size := b.end - n;
      var _ := b.Copy(0, Inside(n), size);
      assert b.Contents()[..size] == before[n..];
      b.Resize(b.end - n);
    }
  }
}
