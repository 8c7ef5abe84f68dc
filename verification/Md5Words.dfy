/** The block function of the MD5 code. Its words are of type unsigned long, 64 bits wide, and
    nothing clears their upper halves; after every single operation the lower halves are the
    32-bit words of RFC 1321. */
module Md5Words {
  import opened Md5Bits
  import opened Md5Reference

  type Word64 = w: Bits | |w| == 64 witness Clear(64)

  // A 64-bit word whose lower half is the 32-bit word.
  predicate Same(x: Word64, a: Word32) {
    x[..32] == a
  }

  // ---------- the macros ----------

  // S: the shift to the left takes the upper half along.
  function S64(x: Word64, n: nat): Word64
    requires 0 < n < 32
  {
    Or(Shl(x, n), Shr(And(x, Word(64, 0xFFFF_FFFF)), 32 - n))
  }

  // The four definitions of F; the first two save an operation over the standard's.
  function F1(x: Word64, y: Word64, z: Word64): Word64 { Xor(z, And(x, Xor(y, z))) }

  function F2(x: Word64, y: Word64, z: Word64): Word64 { Xor(y, And(z, Xor(x, y))) }

  function F3(x: Word64, y: Word64, z: Word64): Word64 { Xor(Xor(x, y), z) }

  function F4(x: Word64, y: Word64, z: Word64): Word64 { Xor(y, Or(x, Not(z))) }

  lemma {:induction false} AddSame(x: Word64, y: Word64, a: Word32, b: Word32)
    requires Same(x, a) && Same(y, b)
    ensures Same(Plus(x, y), Plus(a, b))
  {
    hide Plus;
    LowPlus(x, y, 32);
  }

  lemma {:induction false} S64Same(x: Word64, a: Word32, n: nat)
    requires Same(x, a) && 0 < n < 32
    ensures Same(S64(x, n), Rotl(a, n))
  {
    hide Word;
    var m := Word(64, 0xFFFF_FFFF);
    assert Pow2(32) - 1 == 0xFFFF_FFFF by { PowersOfTwo(); }
    forall i | 0 <= i < 64 ensures m[i] == (i < 32) {
      Mask(64, 32, i);
    }
    var s, r := S64(x, n), Rotl(a, n);
    forall i | 0 <= i < 32 ensures s[i] == r[i] {
      if i < n {
        assert s[i] == x[32 - n + i];
      } else {
        assert s[i] == x[i - n];
      }
    }
  }

  lemma {:induction false} PowersOfTwo()
    ensures Pow2(8) == 0x100 && Pow2(16) == 0x1_0000 && Pow2(32) == 0x1_0000_0000
  {
    assert Pow2(8) == 0x100;
    assert Pow2(12) == 0x1000;
    assert Pow2(16) == 0x1_0000;
    assert Pow2(20) == 0x10_0000;
    assert Pow2(24) == 0x100_0000;
    assert Pow2(28) == 0x1000_0000;
  }

  lemma {:induction false} F1Same(x: Word64, y: Word64, z: Word64, a: Word32, b: Word32, c: Word32)
    requires Same(x, a) && Same(y, b) && Same(z, c)
    ensures Same(F1(x, y, z), F(a, b, c))
  {
  }

  lemma {:induction false} F2Same(x: Word64, y: Word64, z: Word64, a: Word32, b: Word32, c: Word32)
    requires Same(x, a) && Same(y, b) && Same(z, c)
    ensures Same(F2(x, y, z), G(a, b, c))
  {
  }

  lemma {:induction false} F3Same(x: Word64, y: Word64, z: Word64, a: Word32, b: Word32, c: Word32)
    requires Same(x, a) && Same(y, b) && Same(z, c)
    ensures Same(F3(x, y, z), H(a, b, c))
  {
  }

  lemma {:induction false} F4Same(x: Word64, y: Word64, z: Word64, a: Word32, b: Word32, c: Word32)
    requires Same(x, a) && Same(y, b) && Same(z, c)
    ensures Same(F4(x, y, z), I(a, b, c))
  {
  }

  // GET_UINT32
  function GetUint32(b: seq<byte>, i: nat): Word64
    requires i + 4 <= |b|
  {
    var w0, w1, w2, w3 := Word(64, b[i] as nat), Word(64, b[i + 1] as nat), Word(64, b[i + 2] as nat), Word(64, b[i + 3] as nat);
    Or(Or(Or(w0, Shl(w1, 8)), Shl(w2, 16)), Shl(w3, 24))
  }

  // A byte in a wide word has only its own eight bits.
  lemma {:induction false} ByteBits(b: byte)
    ensures Word(64, b as nat) == Bits8(b) + Clear(56)
  {
    PowersOfTwo();
    SmallWord(8, 56, b as nat);
  }

  lemma {:induction false} SmallWord(j: nat, k: nat, n: nat)
    requires n < Pow2(j)
    ensures Word(j + k, n) == Word(j, n) + Clear(k)
  {
    if j == 0 {
      ZeroWord(k);
    } else {
      SmallWord(j - 1, k, n / 2);
    }
  }

  lemma {:induction false} GetSame(b: seq<byte>, i: nat)
    requires i + 4 <= |b|
    ensures Same(GetUint32(b, i), WordAt(b, i))
  {
    hide Word;
    ByteBits(b[i]);
    ByteBits(b[i + 1]);
    ByteBits(b[i + 2]);
    ByteBits(b[i + 3]);
  }

  // PUT_UINT32
  function PutUint32(n: Word64): (b: seq<byte>)
    ensures |b| == 4
  {
    [Truncated(n), Truncated(Shr(n, 8)), Truncated(Shr(n, 16)), Truncated(Shr(n, 24))]
  }

  // (uint8)
  function Truncated(n: Word64): byte {
    PowersOfTwo();
    ValueBound(n[..8]);
    Value(n[..8]) as byte
  }

  lemma {:induction false} PutSame(n: Word64, a: Word32)
    requires Same(n, a)
    ensures PutUint32(n) == WordBytes(a)
  {
    hide Value;
    hide NumberBytes;
    FourBytes(a);
    assert a[..8] == n[..8] && a[8..16] == Shr(n, 8)[..8];
    assert a[16..24] == Shr(n, 16)[..8] && a[24..32] == Shr(n, 24)[..8];
  }

  // The bytes of a word are the numbers of its groups of eight bits.
  lemma {:induction false} FourBytes(a: Bits)
    requires |a| == 32
    ensures Value(a[..8]) < 256 && Value(a[8..16]) < 256 && Value(a[16..24]) < 256 && Value(a[24..32]) < 256
    ensures NumberBytes(4, Value(a)) == [Value(a[..8]) as byte, Value(a[8..16]) as byte, Value(a[16..24]) as byte,
                                         Value(a[24..32]) as byte]
  {
    ByteParts(4, a);
    ByteParts(3, a[8..]);
    ByteParts(2, a[16..]);
    ByteParts(1, a[24..]);
    assert a[8..][8..] == a[16..] && a[16..][8..] == a[24..];
    assert a[8..][..8] == a[8..16] && a[16..][..8] == a[16..24] && a[24..][..8] == a[24..32];
    hide Value;
    assert NumberBytes(0, Value(a[24..][8..])) == [];
  }

  lemma {:induction false} ByteParts(k: nat, w: Bits)
    requires 0 < k && |w| >= 8
    ensures Value(w[..8]) < 256
    ensures NumberBytes(k, Value(w)) == [Value(w[..8]) as byte] + NumberBytes(k - 1, Value(w[8..]))
  {
    hide Value;
    hide Pow2;
    hide NumberBytes;
    PowersOfTwo();
    ValueBound(w[..8]);
    ValueParts(w, 8);
    NumberBytesOne(k, Value(w[..8]), Value(w[8..]));
  }

  lemma {:induction false} NumberBytesOne(k: nat, low: nat, high: nat)
    requires 0 < k && low < 256
    ensures NumberBytes(k, low + 256 * high) == [low as byte] + NumberBytes(k - 1, high)
  {
    assert (low + 256 * high) % 256 == low && (low + 256 * high) / 256 == high;
  }

  // ---------- one operation ----------

  ghost predicate SameWords(x: seq<Word64>, w: seq<Word32>) {
    |x| == |w| == 16 && forall j :: 0 <= j < 16 ==> Same(x[j], w[j])
  }

  // The registers of a state, in the order in which operation i is given them.
  function Ordered(i: nat, regs: Regs): Regs {
    if i % 4 == 0 then regs
    else if i % 4 == 1 then Regs(regs.d, regs.a, regs.b, regs.c)
    else if i % 4 == 2 then Regs(regs.c, regs.d, regs.a, regs.b)
    else Regs(regs.b, regs.c, regs.d, regs.a)
  }

  lemma {:induction false} StepOrdered(i: nat, regs: Regs, x: Word32)
    ensures var o := Ordered(i, regs);
      Ordered(i + 1, Step(i, regs, x)) == Regs(o.d, Op(i, o.a, o.b, o.c, o.d, x), o.b, o.c)
  {
    hide Op;
  }

  ghost predicate Operands(i: nat, a: Word64, b: Word64, c: Word64, d: Word64, regs: Regs) {
    var o := Ordered(i, regs);
    Same(a, o.a) && Same(b, o.b) && Same(c, o.c) && Same(d, o.d)
  }

  // P, with f the value of the macro F: a += f + X[k] + t; a = S(a, s) + b
  function P(a: Word64, b: Word64, f: Word64, x: Word64, s: nat, t: nat): Word64
    requires 0 < s < 32
  {
    Plus(S64(Plus(a, Plus(Plus(f, x), Word(64, t))), s), b)
  }

  lemma {:induction false} PSame(i: nat, a: Word64, f: Word64, b: Word64, x: Word64, o: Regs, w: Word32)
    requires Same(a, o.a) && Same(b, o.b) && Same(f, Mix(i, o.b, o.c, o.d)) && Same(x, w)
    ensures Same(P(a, b, f, x, S(i), T(i)), Op(i, o.a, o.b, o.c, o.d, w))
  {
    hide Plus;
    hide S64;
    hide Rotl;
    hide Mix;
    hide S;
    hide T;
    hide Word;
    var m, t64, t, n := Mix(i, o.b, o.c, o.d), Word(64, T(i)), Word(32, T(i)), S(i);
    LowWord(64, 32, T(i));
    hide Same;
    AddSame(f, x, m, w);
    AddSame(Plus(f, x), t64, Plus(m, w), t);
    AddSame(a, Plus(Plus(f, x), t64), o.a, Plus(Plus(m, w), t));
    var sum := Plus(o.a, Plus(Plus(m, w), t));
    S64Same(Plus(a, Plus(Plus(f, x), t64)), sum, n);
    AddSame(S64(Plus(a, Plus(Plus(f, x), t64)), n), b, Rotl(sum, n), o.b);
    PlusAssociates(o.a, Plus(m, w), t);
    PlusAssociates(o.a, m, w);
    PlusCommutes(o.b, Rotl(sum, n));
  }

  lemma {:induction false} OperandsStep(i: nat, a: Word64, b: Word64, c: Word64, d: Word64, f: Word64, x: Word64,
                                        regs: Regs, w: Word32)
    requires Operands(i, a, b, c, d, regs) && Same(x, w)
    requires var o := Ordered(i, regs); Same(f, Mix(i, o.b, o.c, o.d))
    ensures Operands(i + 1, d, P(a, b, f, x, S(i), T(i)), b, c, Step(i, regs, w))
  {
    hide Same;
    hide Ordered;
    hide P;
    hide Op;
    hide Step;
    hide Mix;
    hide S;
    hide T;
    var o := Ordered(i, regs);
    PSame(i, a, f, b, x, o, w);
    StepOrdered(i, regs, w);
  }

  lemma {:induction false} OneStep(r0: Regs, w: seq<Word32>, i: nat)
    requires |w| == 16
    ensures Steps(r0, w, i + 1) == Step(i, Steps(r0, w, i), w[K(i)])
  {
  }

  // ---------- round 1 ----------

  method P1(ghost i: nat, a: Word64, b: Word64, c: Word64, d: Word64, x: seq<Word64>, k: nat, s: nat, t: nat,
            ghost r0: Regs, ghost w: seq<Word32>) returns (r: Word64)
    requires 0 <= i < 16 && k == K(i) && s == S(i) && t == T(i)
    requires SameWords(x, w) && Operands(i, a, b, c, d, Steps(r0, w, i))
    ensures Operands(i + 1, d, r, b, c, Steps(r0, w, i + 1))
  {
    hide Same;
    hide P;
    hide Op;
    hide S;
    hide T;
    hide K;
    hide F;
    hide G;
    hide H;
    hide I;
    hide Steps;
    hide Step;
    hide F1;
    ghost var o := Ordered(i, Steps(r0, w, i));
    F1Same(b, c, d, o.b, o.c, o.d);
    OperandsStep(i, a, b, c, d, F1(b, c, d), x[k], Steps(r0, w, i), w[k]);
    OneStep(r0, w, i);
    r := P(a, b, F1(b, c, d), x[k], s, t);
  }

  method Round1(x: seq<Word64>, a0: Word64, b0: Word64, c0: Word64, d0: Word64, ghost r0: Regs, ghost w: seq<Word32>)
    returns (a: Word64, b: Word64, c: Word64, d: Word64)
    requires SameWords(x, w) && Operands(0, a0, b0, c0, d0, Steps(r0, w, 0))
    ensures Operands(16, a, b, c, d, Steps(r0, w, 16))
  {
    hide Operands;
    hide SameWords;
    hide Steps;
    a, b, c, d := a0, b0, c0, d0;
    a := P1(0, a, b, c, d, x, 0, 7, 0xD76AA478, r0, w);
    d := P1(1, d, a, b, c, x, 1, 12, 0xE8C7B756, r0, w);
    c := P1(2, c, d, a, b, x, 2, 17, 0x242070DB, r0, w);
    b := P1(3, b, c, d, a, x, 3, 22, 0xC1BDCEEE, r0, w);
    a := P1(4, a, b, c, d, x, 4, 7, 0xF57C0FAF, r0, w);
    d := P1(5, d, a, b, c, x, 5, 12, 0x4787C62A, r0, w);
    c := P1(6, c, d, a, b, x, 6, 17, 0xA8304613, r0, w);
    b := P1(7, b, c, d, a, x, 7, 22, 0xFD469501, r0, w);
    a := P1(8, a, b, c, d, x, 8, 7, 0x698098D8, r0, w);
    d := P1(9, d, a, b, c, x, 9, 12, 0x8B44F7AF, r0, w);
    c := P1(10, c, d, a, b, x, 10, 17, 0xFFFF5BB1, r0, w);
    b := P1(11, b, c, d, a, x, 11, 22, 0x895CD7BE, r0, w);
    a := P1(12, a, b, c, d, x, 12, 7, 0x6B901122, r0, w);
    d := P1(13, d, a, b, c, x, 13, 12, 0xFD987193, r0, w);
    c := P1(14, c, d, a, b, x, 14, 17, 0xA679438E, r0, w);
    b := P1(15, b, c, d, a, x, 15, 22, 0x49B40821, r0, w);
  }

  // ---------- round 2 ----------

  method P2(ghost i: nat, a: Word64, b: Word64, c: Word64, d: Word64, x: seq<Word64>, k: nat, s: nat, t: nat,
            ghost r0: Regs, ghost w: seq<Word32>) returns (r: Word64)
    requires 16 <= i < 32 && k == K(i) && s == S(i) && t == T(i)
    requires SameWords(x, w) && Operands(i, a, b, c, d, Steps(r0, w, i))
    ensures Operands(i + 1, d, r, b, c, Steps(r0, w, i + 1))
  {
    hide Same;
    hide P;
    hide Op;
    hide S;
    hide T;
    hide K;
    hide F;
    hide G;
    hide H;
    hide I;
    hide Steps;
    hide Step;
    hide F2;
    ghost var o := Ordered(i, Steps(r0, w, i));
    F2Same(b, c, d, o.b, o.c, o.d);
    OperandsStep(i, a, b, c, d, F2(b, c, d), x[k], Steps(r0, w, i), w[k]);
    OneStep(r0, w, i);
    r := P(a, b, F2(b, c, d), x[k], s, t);
  }

  method Round2(x: seq<Word64>, a0: Word64, b0: Word64, c0: Word64, d0: Word64, ghost r0: Regs, ghost w: seq<Word32>)
    returns (a: Word64, b: Word64, c: Word64, d: Word64)
    requires SameWords(x, w) && Operands(16, a0, b0, c0, d0, Steps(r0, w, 16))
    ensures Operands(32, a, b, c, d, Steps(r0, w, 32))
  {
    hide Operands;
    hide SameWords;
    hide Steps;
    a, b, c, d := a0, b0, c0, d0;
    a := P2(16, a, b, c, d, x, 1, 5, 0xF61E2562, r0, w);
    d := P2(17, d, a, b, c, x, 6, 9, 0xC040B340, r0, w);
    c := P2(18, c, d, a, b, x, 11, 14, 0x265E5A51, r0, w);
    b := P2(19, b, c, d, a, x, 0, 20, 0xE9B6C7AA, r0, w);
    a := P2(20, a, b, c, d, x, 5, 5, 0xD62F105D, r0, w);
    d := P2(21, d, a, b, c, x, 10, 9, 0x02441453, r0, w);
    c := P2(22, c, d, a, b, x, 15, 14, 0xD8A1E681, r0, w);
    b := P2(23, b, c, d, a, x, 4, 20, 0xE7D3FBC8, r0, w);
    a := P2(24, a, b, c, d, x, 9, 5, 0x21E1CDE6, r0, w);
    d := P2(25, d, a, b, c, x, 14, 9, 0xC33707D6, r0, w);
    c := P2(26, c, d, a, b, x, 3, 14, 0xF4D50D87, r0, w);
    b := P2(27, b, c, d, a, x, 8, 20, 0x455A14ED, r0, w);
    a := P2(28, a, b, c, d, x, 13, 5, 0xA9E3E905, r0, w);
    d := P2(29, d, a, b, c, x, 2, 9, 0xFCEFA3F8, r0, w);
    c := P2(30, c, d, a, b, x, 7, 14, 0x676F02D9, r0, w);
    b := P2(31, b, c, d, a, x, 12, 20, 0x8D2A4C8A, r0, w);
  }

  // ---------- round 3 ----------

  method P3(ghost i: nat, a: Word64, b: Word64, c: Word64, d: Word64, x: seq<Word64>, k: nat, s: nat, t: nat,
            ghost r0: Regs, ghost w: seq<Word32>) returns (r: Word64)
    requires 32 <= i < 48 && k == K(i) && s == S(i) && t == T(i)
    requires SameWords(x, w) && Operands(i, a, b, c, d, Steps(r0, w, i))
    ensures Operands(i + 1, d, r, b, c, Steps(r0, w, i + 1))
  {
    hide Same;
    hide P;
    hide Op;
    hide S;
    hide T;
    hide K;
    hide F;
    hide G;
    hide H;
    hide I;
    hide Steps;
    hide Step;
    hide F3;
    ghost var o := Ordered(i, Steps(r0, w, i));
    F3Same(b, c, d, o.b, o.c, o.d);
    OperandsStep(i, a, b, c, d, F3(b, c, d), x[k], Steps(r0, w, i), w[k]);
    OneStep(r0, w, i);
    r := P(a, b, F3(b, c, d), x[k], s, t);
  }

  method Round3(x: seq<Word64>, a0: Word64, b0: Word64, c0: Word64, d0: Word64, ghost r0: Regs, ghost w: seq<Word32>)
    returns (a: Word64, b: Word64, c: Word64, d: Word64)
    requires SameWords(x, w) && Operands(32, a0, b0, c0, d0, Steps(r0, w, 32))
    ensures Operands(48, a, b, c, d, Steps(r0, w, 48))
  {
    hide Operands;
    hide SameWords;
    hide Steps;
    a, b, c, d := a0, b0, c0, d0;
    a := P3(32, a, b, c, d, x, 5, 4, 0xFFFA3942, r0, w);
    d := P3(33, d, a, b, c, x, 8, 11, 0x8771F681, r0, w);
    c := P3(34, c, d, a, b, x, 11, 16, 0x6D9D6122, r0, w);
    b := P3(35, b, c, d, a, x, 14, 23, 0xFDE5380C, r0, w);
    a := P3(36, a, b, c, d, x, 1, 4, 0xA4BEEA44, r0, w);
    d := P3(37, d, a, b, c, x, 4, 11, 0x4BDECFA9, r0, w);
    c := P3(38, c, d, a, b, x, 7, 16, 0xF6BB4B60, r0, w);
    b := P3(39, b, c, d, a, x, 10, 23, 0xBEBFBC70, r0, w);
    a := P3(40, a, b, c, d, x, 13, 4, 0x289B7EC6, r0, w);
    d := P3(41, d, a, b, c, x, 0, 11, 0xEAA127FA, r0, w);
    c := P3(42, c, d, a, b, x, 3, 16, 0xD4EF3085, r0, w);
    b := P3(43, b, c, d, a, x, 6, 23, 0x04881D05, r0, w);
    a := P3(44, a, b, c, d, x, 9, 4, 0xD9D4D039, r0, w);
    d := P3(45, d, a, b, c, x, 12, 11, 0xE6DB99E5, r0, w);
    c := P3(46, c, d, a, b, x, 15, 16, 0x1FA27CF8, r0, w);
    b := P3(47, b, c, d, a, x, 2, 23, 0xC4AC5665, r0, w);
  }

  // ---------- round 4 ----------

  method P4(ghost i: nat, a: Word64, b: Word64, c: Word64, d: Word64, x: seq<Word64>, k: nat, s: nat, t: nat,
            ghost r0: Regs, ghost w: seq<Word32>) returns (r: Word64)
    requires 48 <= i < 64 && k == K(i) && s == S(i) && t == T(i)
    requires SameWords(x, w) && Operands(i, a, b, c, d, Steps(r0, w, i))
    ensures Operands(i + 1, d, r, b, c, Steps(r0, w, i + 1))
  {
    hide Same;
    hide P;
    hide Op;
    hide S;
    hide T;
    hide K;
    hide F;
    hide G;
    hide H;
    hide I;
    hide Steps;
    hide Step;
    hide F4;
    ghost var o := Ordered(i, Steps(r0, w, i));
    F4Same(b, c, d, o.b, o.c, o.d);
    OperandsStep(i, a, b, c, d, F4(b, c, d), x[k], Steps(r0, w, i), w[k]);
    OneStep(r0, w, i);
    r := P(a, b, F4(b, c, d), x[k], s, t);
  }

  method Round4(x: seq<Word64>, a0: Word64, b0: Word64, c0: Word64, d0: Word64, ghost r0: Regs, ghost w: seq<Word32>)
    returns (a: Word64, b: Word64, c: Word64, d: Word64)
    requires SameWords(x, w) && Operands(48, a0, b0, c0, d0, Steps(r0, w, 48))
    ensures Operands(64, a, b, c, d, Steps(r0, w, 64))
  {
    hide Operands;
    hide SameWords;
    hide Steps;
    a, b, c, d := a0, b0, c0, d0;
    a := P4(48, a, b, c, d, x, 0, 6, 0xF4292244, r0, w);
    d := P4(49, d, a, b, c, x, 7, 10, 0x432AFF97, r0, w);
    c := P4(50, c, d, a, b, x, 14, 15, 0xAB9423A7, r0, w);
    b := P4(51, b, c, d, a, x, 5, 21, 0xFC93A039, r0, w);
    a := P4(52, a, b, c, d, x, 12, 6, 0x655B59C3, r0, w);
    d := P4(53, d, a, b, c, x, 3, 10, 0x8F0CCC92, r0, w);
    c := P4(54, c, d, a, b, x, 10, 15, 0xFFEFF47D, r0, w);
    b := P4(55, b, c, d, a, x, 1, 21, 0x85845DD1, r0, w);
    a := P4(56, a, b, c, d, x, 8, 6, 0x6FA87E4F, r0, w);
    d := P4(57, d, a, b, c, x, 15, 10, 0xFE2CE6E0, r0, w);
    c := P4(58, c, d, a, b, x, 6, 15, 0xA3014314, r0, w);
    b := P4(59, b, c, d, a, x, 13, 21, 0x4E0811A1, r0, w);
    a := P4(60, a, b, c, d, x, 4, 6, 0xF7537E82, r0, w);
    d := P4(61, d, a, b, c, x, 11, 10, 0xBD3AF235, r0, w);
    c := P4(62, c, d, a, b, x, 2, 15, 0x2AD7D2BB, r0, w);
    b := P4(63, b, c, d, a, x, 9, 21, 0xEB86D391, r0, w);
  }

}
