/** The streaming MD5 context: a partial block, four 64-bit words and a byte count in two words. */
module Md5 {
  import opened Md5Bits
  import opened Md5Reference
  import opened Md5Words

  const TWO29: nat := 0x2000_0000
  const TWO32: nat := 0x1_0000_0000
  const TWO61: nat := 0x2000_0000_0000_0000
  const TWO64: nat := 0x1_0000_0000_0000_0000

  // ---------- folding a growing message ----------

  lemma {:induction false} FoldNext(r: Regs, whole: seq<byte>, done: nat)
    requires done % 64 == 0 && done + 64 <= |whole|
    ensures Fold(r, whole[..done + 64]) == Compress(Fold(r, whole[..done]), whole[done..done + 64])
  {
    assert whole[..done + 64] == whole[..done] + whole[done..done + 64];
    FoldParts(r, whole[..done], whole[done..done + 64]);
    FoldOne(Fold(r, whole[..done]), whole[done..done + 64]);
  }

  // ---------- the byte count ----------

  // The two counters after one call with length bytes: the carry is at most one.
  function Low(low: nat, length: nat): nat {
    (low + length) % TWO64 % TWO32
  }

  function High(low: nat, high: nat, length: nat): nat {
    if Low(low, length) < length then (high + 1) % TWO64 else high
  }

  lemma {:induction false} LowCounts(low: nat, length: nat)
    ensures Low(low, length) == (low + length) % TWO32
  {
    var n := low + length;
    var q := n / TWO64;
    assert n == n % TWO64 + TWO32 * (TWO32 * q);
    ModuloShift(n % TWO64, TWO32 * q);
  }

  lemma {:induction false} ModuloShift(n: nat, q: nat)
    ensures (n + TWO32 * q) % TWO32 == n % TWO32
  {
  }

  // The comparison finds out whether there was a carry at all.
  lemma {:induction false} CarryFound(low: nat, length: nat)
    requires low < TWO32
    ensures Low(low, length) < length <==> low + length >= TWO32
  {
    LowCounts(low, length);
  }

  // The carry the count needs is the quotient; the code adds one or nothing.
  lemma {:induction false} CountKept(low: nat, high: nat, length: nat, n: nat)
    requires low < TWO32 && (low + TWO32 * high) % TWO61 == n % TWO61
    ensures var q := (low + length) / TWO32;
      (Low(low, length) + TWO32 * High(low, high, length)) % TWO61 == (n + length) % TWO61
      <==> q == 0 || q % TWO29 == 1
  {
    LowCounts(low, length);
    CarryFound(low, length);
    var q := (low + length) / TWO32;
    var l := (low + length) % TWO32;
    var c := if low + length >= TWO32 then 1 else 0;
    var h := High(low, high, length);
    var wrap := (high + c) / TWO64;
    assert h == (high + c) % TWO64 || (c == 0 && h == high);
    assert low + length == l + TWO32 * q;
    CountCongruence(low, high, length, n, l, q);
    if c == 0 {
    } else {
      assert high + 1 == h + TWO64 * wrap;
      WrapIrrelevant(l, high + 1, h, wrap);
      QuotientMatches(l, high, 1, q);
    }
  }

  lemma {:induction false} CountCongruence(low: nat, high: nat, length: nat, n: nat, l: nat, q: nat)
    requires (low + TWO32 * high) % TWO61 == n % TWO61 && low + length == l + TWO32 * q
    ensures (n + length) % TWO61 == (l + TWO32 * (high + q)) % TWO61
  {
  }

  lemma {:induction false} WrapIrrelevant(l: nat, a: nat, h: nat, wrap: nat)
    requires a == h + TWO64 * wrap
    ensures (l + TWO32 * a) % TWO61 == (l + TWO32 * h) % TWO61
  {
  }

  lemma {:induction false} QuotientMatches(l: nat, high: nat, c: nat, q: nat)
    ensures (l + TWO32 * (high + c)) % TWO61 == (l + TWO32 * (high + q)) % TWO61 <==> c % TWO29 == q % TWO29
  {
    var a, b := l + TWO32 * (high + c), l + TWO32 * (high + q);
    var d: int := c as int - q as int;
    assert a - b == TWO32 * d;
    Congruent(TWO61, a, b);
    Congruent(TWO29, c, q);
    assert d % TWO29 == 0 ==> TWO32 * d == TWO61 * (d / TWO29);
    assert TWO32 * d % TWO61 == 0 ==> d == TWO29 * (TWO32 * d / TWO61);
  }

  lemma {:induction false} Congruent(m: int, a: int, b: int)
    requires m == TWO61 || m == TWO29
    ensures a % m == b % m <==> (a - b) % m == 0
  {
  }

  // ---------- the length in bits ----------

  lemma {:induction false} NumberBytesWrap(k: nat, n: nat, m: nat)
    ensures NumberBytes(k, n + Pow2(8 * k) * m) == NumberBytes(k, n)
  {
    if k > 0 {
      hide Pow2;
      hide NumberBytes;
      var h := Pow2(8 * (k - 1)) * m;
      assert 8 * (k - 1) + 8 == 8 * k;
      FirstByte(k, n);
      FirstByte(k, n + 256 * h);
      EightDoublings(8 * (k - 1));
      ByteProduct(Pow2(8 * k), Pow2(8 * (k - 1)), m);
      ByteShift(n, h);
      NumberBytesWrap(k - 1, n / 256, m);
    }
  }

  lemma {:induction false} FirstByte(k: nat, n: nat)
    requires k > 0
    ensures NumberBytes(k, n) == [(n % 256) as byte] + NumberBytes(k - 1, n / 256)
  {
  }

  lemma {:induction false} ByteProduct(p: nat, q: nat, m: nat)
    requires p == 256 * q
    ensures p * m == 256 * (q * m)
  {
  }

  lemma {:induction false} ByteShift(n: nat, h: nat)
    ensures (n + 256 * h) % 256 == n % 256 && (n + 256 * h) / 256 == n / 256 + h
  {
  }

  lemma {:induction false} EightDoublings(j: nat)
    ensures Pow2(j + 8) == 256 * Pow2(j)
  {
    assert Pow2(j + 2) == 4 * Pow2(j);
    assert Pow2(j + 4) == 4 * Pow2(j + 2);
    assert Pow2(j + 6) == 4 * Pow2(j + 4);
    assert Pow2(j + 8) == 4 * Pow2(j + 6);
  }

  lemma {:induction false} LengthPowers()
    ensures Pow2(32) == TWO32 && Pow2(64) == TWO64 && Pow2(29) == TWO29
  {
    PowersOfTwo();
    EightDoublings(32);
    EightDoublings(40);
    EightDoublings(48);
    EightDoublings(56);
    assert Pow2(32) == 8 * Pow2(29);
  }

  // What PUT_UINT32 stores for a number.
  lemma {:induction false} PutNumber(n: nat)
    ensures PutUint32(Word(64, n)) == NumberBytes(4, n)
  {
    hide Word;
    hide PutUint32;
    hide NumberBytes;
    LowWord(64, 32, n);
    PutSame(Word(64, n), Word(32, n));
    var m := ValueOfWord(32, n);
    NumberBytesWrap(4, Value(Word(32, n)), m);
  }

  lemma {:induction false} HighWord(k: nat, j: nat, n: nat)
    requires j <= k
    ensures Word(k, n)[j..] == Word(k - j, n / Pow2(j))
  {
    if j == 0 {
    } else {
      HighWord(k - 1, j - 1, n / 2);
      assert n / Pow2(j) == n / 2 / Pow2(j - 1) by {
        DivideTwice(n, Pow2(j - 1));
      }
      assert Word(k, n)[j..] == Word(k - 1, n / 2)[j - 1..];
    }
  }

  lemma {:induction false} DivideTwice(n: nat, p: nat)
    requires p > 0
    ensures n / (2 * p) == n / 2 / p
  {
    var q := n / (2 * p);
    var r := n % (2 * p);
    assert n == 2 * (p * q) + r;
    assert n / 2 == p * q + r / 2 && 0 <= r / 2 < p;
    QuotientIs(n / 2, p, q, r / 2);
  }

  lemma {:induction false} QuotientIs(n: nat, p: nat, q: nat, r: nat)
    requires r < p && n == p * q + r
    ensures n / p == q
  {
    var d: int := n / p - q;
    assert p * d == r - n % p;
    assert (d >= 1 ==> p * d >= p) && (d <= -1 ==> p * d + p <= 0);
  }

  // low = total[0] << 3
  lemma {:induction false} ShiftedLeft(n: nat)
    ensures Shl(Word(64, n), 3) == Word(64, 8 * n)
  {
    hide Word;
    LowWord(64, 61, n);
    WordParts(62, 0, n);
    WordParts(63, 0, 2 * n);
    WordParts(64, 0, 4 * n);
  }

  // high = (total[0] >> 29) | (total[1] << 3)
  lemma {:induction false} LengthHigh(low: nat, high: nat)
    requires low < TWO32
    ensures Or(Shr(Word(64, low), 29), Shl(Word(64, high), 3)) == Word(64, low / TWO29 + 8 * high)
  {
    hide Word;
    hide Or;
    LengthPowers();
    HighWord(64, 29, low);
    assert low / TWO29 < Pow2(3);
    MonotonePow2(3, 35);
    SmallWord(35, 29, low / TWO29);
    ShiftedLeft(high);
    OrOctal(64, low / TWO29, high);
  }

  lemma {:induction false} MonotonePow2(i: nat, j: nat)
    requires i <= j
    ensures Pow2(i) <= Pow2(j)
    decreases j
  {
    if i < j {
      MonotonePow2(i, j - 1);
    }
  }

  lemma {:induction false} FourMore(k: nat, n: nat)
    ensures NumberBytes(k + 4, n)
      == [(n % 256) as byte, (n / 0x100 % 256) as byte, (n / 0x1_0000 % 256) as byte, (n / 0x100_0000 % 256) as byte]
         + NumberBytes(k, n / TWO32)
  {
    var n1, n2, n3, n4 := n / 0x100, n / 0x1_0000, n / 0x100_0000, n / TWO32;
    assert n2 == n1 / 256 && n3 == n2 / 256 && n4 == n3 / 256;
    assert NumberBytes(k + 4, n) == [(n % 256) as byte] + NumberBytes(k + 3, n1);
    assert NumberBytes(k + 3, n1) == [(n1 % 256) as byte] + NumberBytes(k + 2, n2);
    assert NumberBytes(k + 2, n2) == [(n2 % 256) as byte] + NumberBytes(k + 1, n3);
    assert NumberBytes(k + 1, n3) == [(n3 % 256) as byte] + NumberBytes(k, n4);
  }

  lemma {:induction false} TwoHalves(n: nat)
    ensures NumberBytes(8, n) == NumberBytes(4, n) + NumberBytes(4, n / TWO32)
  {
    FourMore(4, n);
    FourMore(0, n);
  }

  // The eight bytes that go out after the padding.
  lemma {:induction false} LengthBytes(low: nat, high: nat)
    requires low < TWO32
    ensures PutUint32(Shl(Word(64, low), 3)) + PutUint32(Or(Shr(Word(64, low), 29), Shl(Word(64, high), 3)))
      == NumberBytes(8, 8 * (low + TWO32 * high))
  {
    hide Word;
    hide Or;
    hide Shl;
    hide Shr;
    hide PutUint32;
    hide NumberBytes;
    var n := 8 * (low + TWO32 * high);
    ShiftedLeft(low);
    LengthHigh(low, high);
    PutNumber(8 * low);
    PutNumber(low / TWO29 + 8 * high);
    TwoHalves(n);
    LengthPowers();
    NumberBytesWrap(4, 8 * low, 8 * high);
    assert n / TWO32 == low / TWO29 + 8 * high;
  }

  // Counts that agree modulo 2^61 give the same length in bits.
  lemma {:induction false} SameLength(a: nat, b: nat)
    requires a % TWO61 == b % TWO61
    ensures NumberBytes(8, 8 * a) == NumberBytes(8, 8 * b)
  {
    hide NumberBytes;
    LengthPowers();
    var m := a % TWO61;
    assert 8 * a == 8 * m + TWO64 * (a / TWO61) && 8 * b == 8 * m + TWO64 * (b / TWO61);
    NumberBytesWrap(8, 8 * m, a / TWO61);
    NumberBytesWrap(8, 8 * m, b / TWO61);
  }

  // ---------- the context ----------

  ghost predicate SameRegs(s: seq<Word64>, r: Regs) {
    |s| == 4 && Same(s[0], r.a) && Same(s[1], r.b) && Same(s[2], r.c) && Same(s[3], r.d)
  }

  lemma {:induction false} WordsSame(x: seq<Word64>, block: seq<byte>)
    requires |block| == 64 && |x| == 16 && forall j :: 0 <= j < 16 ==> x[j] == GetUint32(block, 4 * j)
    ensures SameWords(x, Words(block))
  {
    hide Initial;
    hide Word;
    hide GetUint32;
    hide WordAt;
    hide Same;
    forall j | 0 <= j < 16 ensures Same(x[j], Words(block)[j]) {
      GetSame(block, 4 * j);
    }
  }

  // The first done bytes of the message have gone into the state; the others are held and to come.
  ghost predicate Folded(s: seq<Word64>, whole: seq<byte>, done: nat, held: seq<byte>, rest: seq<byte>) {
    && done % 64 == 0 && done <= |whole| && whole[done..] == held + rest
    && SameRegs(s, Fold(Initial(), whole[..done]))
  }

  // The registers after the first done bytes.
  ghost function RegsAfter(whole: seq<byte>, done: nat): Regs
    requires done <= |whole|
  {
    Fold(Initial(), whole[..done])
  }

  lemma {:induction false} FoldedBlock(s: seq<Word64>, whole: seq<byte>, done: nat, block: seq<byte>, rest: seq<byte>)
    requires done % 64 == 0 && done <= |whole| && |block| == 64 && whole[done..] == block + rest
    requires SameRegs(s, Compress(RegsAfter(whole, done), block))
    ensures Folded(s, whole, done + 64, [], rest)
  {
    hide Initial;
    hide Word;
    hide Compress;
    hide SameRegs;
    FoldNext(Initial(), whole, done);
    assert whole[done..done + 64] == whole[done..][..64] == block;
    assert whole[done + 64..] == whole[done..][64..] == rest;
  }

  lemma {:induction false} FoldedMore(s: seq<Word64>, whole: seq<byte>, done: nat, held: seq<byte>, input: seq<byte>)
    requires Folded(s, whole, done, held, [])
    ensures Folded(s, whole + input, done, held, input)
  {
    hide Initial;
    hide Word;
    hide SameRegs;
    hide Fold;
    CutLonger(whole, input, done);
    assert held + [] + input == held + input;
  }

  lemma {:induction false} CutLonger(whole: seq<byte>, input: seq<byte>, done: nat)
    requires done <= |whole|
    ensures (whole + input)[..done] == whole[..done] && (whole + input)[done..] == whole[done..] + input
  {
  }

  lemma {:induction false} InitialSame(s: seq<Word64>)
    requires s == [Word(64, 0x67452301), Word(64, 0xEFCDAB89), Word(64, 0x98BADCFE), Word(64, 0x10325476)]
    ensures Folded(s, [], 0, [], [])
  {
    hide Word;
    LowWord(64, 32, 0x67452301);
    LowWord(64, 32, 0xEFCDAB89);
    LowWord(64, 32, 0x98BADCFE);
    LowWord(64, 32, 0x10325476);
  }

  // The bytes of n that are short of a block.
  function Left(n: nat): (left: nat)
    ensures left < 64 && left <= n
  {
    n % 64
  }

  lemma {:induction false} LeftIs(done: nat, left: nat)
    requires done % 64 == 0 && left < 64
    ensures Left(done + left) == left
  {
  }

  lemma {:induction false} LeftOfLow(n: nat)
    ensures n % TWO32 % 64 == Left(n)
  {
    WholeBlocks(n % TWO32, 0x400_0000 * (n / TWO32));
  }

  lemma {:induction false} WholeBlocks(n: nat, k: nat)
    ensures (n + 64 * k) % 64 == n % 64
  {
  }

  lemma {:induction false} LeftOver(s: seq<Word64>, whole: seq<byte>, done: nat, held: seq<byte>, rest: seq<byte>)
    requires Folded(s, whole, done, held, rest) && |held| + |rest| < 64
    ensures Left(|whole|) == |held| + |rest|
  {
    hide SameRegs;
    hide Fold;
    hide Initial;
    hide Left;
    assert |whole| - done == |whole[done..]|;
    LeftIs(done, |held| + |rest|);
  }

  // Whether the count stays right over a call with length bytes: no carry, or one that is one.
  ghost predicate Carried(low: nat, length: nat) {
    var q := (low + length) / TWO32;
    q == 0 || q % TWO29 == 1
  }

  // The counters hold the number n of bytes, as far as the length field goes.
  ghost predicate Counts(low: nat, high: nat, n: nat) {
    (low + TWO32 * high) % TWO61 == n % TWO61
  }

  // Calls with up to 4 GiB never lose the count.
  lemma {:induction false} ShortCallsCount(low: nat, length: nat)
    requires low < TWO32 && length <= TWO32
    ensures Carried(low, length)
  {
    assert (low + length) / TWO32 < 2;
  }

  // One call with 8 GiB does: two carries are due and one is made.
  lemma {:induction false} LongCallMiscounts()
    ensures Counts(0, 0, 0) && !Carried(0, 2 * TWO32)
    ensures !Counts(Low(0, 2 * TWO32), High(0, 0, 2 * TWO32), 2 * TWO32)
  {
    CountKept(0, 0, 2 * TWO32, 0);
  }

  class Context {
    var total0: nat
    var total1: nat
    const state: array<Word64>
    const buffer: array<byte>

    // Everything given to the context since it was started.
    ghost var message: seq<byte>

    ghost predicate Valid()
      reads this, state, buffer
    {
      && state.Length == 4 && buffer.Length == 64
      && total0 < TWO32 && total1 < TWO64 && total0 == |message| % TWO32
      && var left := Left(|message|);
         Folded(state[..], message, |message| - left, buffer[..left], [])
    }

    ghost predicate Counted()
      reads this
    {
      Counts(total0, total1, |message|)
    }

    constructor ()
      ensures state.Length == 4 && buffer.Length == 64 && fresh(state) && fresh(buffer)
    {
      state := new Word64[4];
      buffer := new byte[64];
    }

    // md5_starts
    method Starts()
      requires state.Length == 4 && buffer.Length == 64
      modifies this, state
      ensures Valid() && Counted() && message == []
    {
      hide Initial;
      hide Word;
      hide Folded;
      total0, total1 := 0, 0;
      message := [];
      state[0] := Word(64, 0x67452301);
      state[1] := Word(64, 0xEFCDAB89);
      state[2] := Word(64, 0x98BADCFE);
      state[3] := Word(64, 0x10325476);
      assert state[..] == [Word(64, 0x67452301), Word(64, 0xEFCDAB89), Word(64, 0x98BADCFE), Word(64, 0x10325476)];
      InitialSame(state[..]);
      assert buffer[..0] == [];
    }

    // md5_process
    method Process(data: seq<byte>, ghost r: Regs)
      requires |data| == 64 && state.Length == 4 && SameRegs(state[..], r)
      modifies state
      ensures SameRegs(state[..], Compress(r, data))
    {
      hide Initial;
      hide Word;
      hide Same;
      hide GetUint32;
      hide Words;
      hide Plus;
      hide Steps;
      var x: seq<Word64> := seq(16, j requires 0 <= j < 16 => GetUint32(data, 4 * j));
      WordsSame(x, data);
      ghost var w := Words(data);
      var a, b, c, d := state[0], state[1], state[2], state[3];
      assert Operands(0, a, b, c, d, Steps(r, w, 0)) by { StepsStart(r, w); }
      a, b, c, d := Round1(x, a, b, c, d, r, w);
      a, b, c, d := Round2(x, a, b, c, d, r, w);
      a, b, c, d := Round3(x, a, b, c, d, r, w);
      a, b, c, d := Round4(x, a, b, c, d, r, w);
      ghost var q := Steps(r, w, 64);
      AddSame(state[0], a, r.a, q.a);
      AddSame(state[1], b, r.b, q.b);
      AddSame(state[2], c, r.c, q.c);
      AddSame(state[3], d, r.d, q.d);
      state[0] := Plus(state[0], a);
      state[1] := Plus(state[1], b);
      state[2] := Plus(state[2], c);
      state[3] := Plus(state[3], d);
    }

    // md5_process on the next block of the message.
    method ProcessNext(data: seq<byte>, ghost whole: seq<byte>, ghost done: nat, ghost rest: seq<byte>)
      requires |data| == 64 && state.Length == 4 && Folded(state[..], whole, done, data, rest)
      modifies state
      ensures Folded(state[..], whole, done + 64, [], rest)
    {
      hide Compress;
      hide SameRegs;
      hide Fold;
      Process(data, RegsAfter(whole, done));
      FoldedBlock(state[..], whole, done, data, rest);
    }

    // memcpy of n input bytes to buffer + left, if there are any
    method Keep(input: seq<byte>, from: nat, left: nat, n: nat)
      requires buffer.Length == 64 && left + n <= 64 && from + n <= |input|
      modifies buffer
      ensures buffer[..left + n] == old(buffer[..left]) + input[from..from + n]
    {
      forall i | left <= i < left + n {
        buffer[i] := input[from + i - left];
      }
    }

    // The counters: total[0] is cut to 32 bits, total[1] takes at most one carry.
    method Count(length: nat)
      requires total0 < TWO32 && total1 < TWO64 && length < TWO64
      modifies this`total0, this`total1
      ensures total0 == old(total0 + length) % TWO32
      ensures total1 == old(if total0 + length < TWO32 then total1 else (total1 + 1) % TWO64)
      ensures old(Counted()) ==> (Counts(total0, total1, |message| + length) <==> old(Carried(total0, length)))
    {
      CarryFound(total0, length);
      LowCounts(total0, length);
      if Counted() {
        CountKept(total0, total1, length, |message|);
      }
      total0 := (total0 + length) % TWO64;
      total0 := total0 % TWO32;
      if total0 < length {
        total1 := (total1 + 1) % TWO64;
      }
    }

    // md5_update
    method Update(input: seq<byte>)
      requires Valid() && |input| < TWO64
      modifies this, state, buffer
      ensures Valid() && message == old(message) + input
      ensures total1 == old(if total0 + |input| < TWO32 then total1 else (total1 + 1) % TWO64)
      ensures old(Counted()) ==> (Counted() <==> old(Carried(total0, |input|)))
    {
      hide Folded;
      hide Left;
      hide Counts;
      if |input| == 0 {
        assert message + input == message;
        return;
      }
      LeftOfLow(|message|);
      LowAdds(|message|, |input|);
      var left := total0 % 64;
      Count(|input|);
      Absorb(input, left);
      message := message + input;
    }

    // The partial block, filled up and processed.
    method FillBlock(input: seq<byte>, left: nat, ghost whole: seq<byte>, ghost done: nat)
      requires state.Length == 4 && buffer.Length == 64 && left < 64 && 64 - left <= |input|
      requires Folded(state[..], whole, done, buffer[..left], input)
      modifies state, buffer
      ensures Folded(state[..], whole, done + 64, [], input[64 - left..])
    {
      hide Folded;
      var fill := 64 - left;
      assert input[0..] == input;
      TakeHeld(state[..], whole, done, buffer[..left], input, 0, fill);
      Keep(input, 0, left, fill);
      assert buffer[..64] == buffer[..];
      ProcessNext(buffer[..], whole, done, input[fill..]);
    }

    // A block straight from the input.
    method TakeBlock(input: seq<byte>, pos: nat, ghost whole: seq<byte>, ghost done: nat)
      requires state.Length == 4 && pos + 64 <= |input| && Folded(state[..], whole, done, [], input[pos..])
      modifies state
      ensures Folded(state[..], whole, done + 64, [], input[pos + 64..])
    {
      hide Folded;
      TakeHeld(state[..], whole, done, [], input, pos, 64);
      assert [] + input[pos..pos + 64] == input[pos..pos + 64];
      ProcessNext(input[pos..pos + 64], whole, done, input[pos + 64..]);
    }

    // How md5_update goes through its bytes.
    method Absorb(input: seq<byte>, filled: nat)
      requires state.Length == 4 && buffer.Length == 64 && filled == Left(|message|)
      requires Folded(state[..], message, |message| - filled, buffer[..filled], [])
      modifies state, buffer
      ensures var n := Left(|message| + |input|);
        Folded(state[..], message + input, |message| + |input| - n, buffer[..n], [])
    {
      hide Initial;
      hide Word;
      hide Left;
      hide Folded;
      hide SameRegs;
      hide Compress;
      hide Fold;
      var left, length, pos := filled, |input|, 0;
      var fill := 64 - left;
      ghost var whole, done := message + input, |message| - left;
      FoldedMore(state[..], message, done, buffer[..left], input);
      assert input[0..] == input;
      if left > 0 && length >= fill {
        FillBlock(input, left, whole, done);
        length, pos := length - fill, pos + fill;
        left, done := 0, done + 64;
        assert buffer[..left] == [];
      }
      while length >= 64
        invariant 0 <= length && 0 <= pos && pos + length == |input|
        invariant left < 64 && done + left + length == |whole|
        invariant left > 0 ==> length < 64 - left
        invariant Folded(state[..], whole, done, buffer[..left], input[pos..])
        modifies state
      {
        assert buffer[..left] == [];
        TakeBlock(input, pos, whole, done);
        length, pos := length - 64, pos + 64;
        done := done + 64;
      }
      LeftOver(state[..], whole, done, buffer[..left], input[pos..]);
      TakeHeld(state[..], whole, done, buffer[..left], input, pos, length);
      Keep(input, pos, left, length);
    }

    // md5_finish
    method Finish() returns (digest: seq<byte>)
      requires Valid()
      modifies this, state, buffer
      ensures digest == Output(Fold(Initial(), old(Closed(message, total0 + TWO32 * total1))))
      ensures old(Counted()) ==> digest == Digest(old(message))
    {
      hide Folded;
      hide Left;
      hide Counts;
      hide Carried;
      hide PutUint32;
      hide Fold;
      hide Initial;
      hide Digest;
      hide Closed;
      hide Word;
      hide Shl;
      hide Shr;
      hide Or;
      hide Padding;
      hide PaddingLength;
      hide NumberBytes;
      hide Output;
      ghost var msg, count := message, total0 + TWO32 * total1;
      var high: Word64 := Or(Shr(Word(64, total0), 29), Shl(Word(64, total1), 3));
      var low: Word64 := Shl(Word(64, total0), 3);
      var msglen := PutUint32(low) + PutUint32(high);
      LengthBytes(total0, total1);
      var last := total0 % 64;
      var padn := if last < 56 then 56 - last else 120 - last;
      LeftOfLow(|msg|);
      PaddingIs(|msg|, padn);
      Update(Padding(padn));
      Update(msglen);
      ClosedIs(msg, count, padn);
      if Counts(old(total0), old(total1), |msg|) {
        ClosedRight(msg, old(total0), old(total1));
      }
      Flush(state[..], message, buffer[..Left(|message|)]);
      digest := PutUint32(state[0]) + PutUint32(state[1]) + PutUint32(state[2]) + PutUint32(state[3]);
    }
  }

  // The message with its padding and the length that the counters give.
  ghost function Closed(msg: seq<byte>, count: nat): seq<byte> {
    msg + Padding(PaddingLength(|msg|)) + NumberBytes(8, 8 * count)
  }

  lemma {:induction false} PaddingIs(n: nat, padn: nat)
    requires padn == if Left(n) < 56 then 56 - Left(n) else 120 - Left(n)
    ensures padn == PaddingLength(n) > 0
  {
  }

  lemma {:induction false} ClosedIs(msg: seq<byte>, count: nat, padn: nat)
    requires padn == PaddingLength(|msg|)
    ensures msg + Padding(padn) + NumberBytes(8, 8 * count) == Closed(msg, count)
    ensures |Closed(msg, count)| % 64 == 0
  {
    hide NumberBytes;
    hide Padding;
    hide PaddingLength;
  }

  lemma {:induction false} ClosedRight(msg: seq<byte>, low: nat, high: nat)
    requires Counts(low, high, |msg|)
    ensures Output(Fold(Initial(), Closed(msg, low + TWO32 * high))) == Digest(msg)
  {
    hide NumberBytes;
    hide Padding;
    hide PaddingLength;
    hide Fold;
    hide Initial;
    SameLength(low + TWO32 * high, |msg|);
  }

  lemma {:induction false} LowAdds(n: nat, length: nat)
    ensures (n % TWO32 + length) % TWO32 == (n + length) % TWO32
  {
  }

  // n bytes of the input join those held.
  lemma {:induction false} TakeHeld(s: seq<Word64>, whole: seq<byte>, done: nat, held: seq<byte>, input: seq<byte>,
                                    pos: nat, n: nat)
    requires pos + n <= |input| && Folded(s, whole, done, held, input[pos..])
    ensures Folded(s, whole, done, held + input[pos..pos + n], input[pos + n..])
    ensures pos + n == |input| ==> input[pos + n..] == []
  {
    hide Initial;
    hide Word;
    hide SameRegs;
    hide Fold;
    assert held + input[pos..] == (held + input[pos..pos + n]) + input[pos + n..];
  }

  // With no byte held, the state is the whole message's.
  lemma {:induction false} Flush(s: seq<Word64>, whole: seq<byte>, held: seq<byte>)
    requires |whole| % 64 == 0 && Folded(s, whole, |whole| - Left(|whole|), held, [])
    ensures |s| == 4
    ensures PutUint32(s[0]) + PutUint32(s[1]) + PutUint32(s[2]) + PutUint32(s[3]) == Output(Fold(Initial(), whole))
  {
    hide PutUint32;
    hide WordBytes;
    hide Same;
    hide Fold;
    hide Initial;
    assert whole[..|whole|] == whole;
    var r := Fold(Initial(), whole);
    PutSame(s[0], r.a);
    PutSame(s[1], r.b);
    PutSame(s[2], r.c);
    PutSame(s[3], r.d);
  }

  lemma {:induction false} StepsStart(r: Regs, w: seq<Word32>)
    requires |w| == 16
    ensures Steps(r, w, 0) == r
  {
  }
}
