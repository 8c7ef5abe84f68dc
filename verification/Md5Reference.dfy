/** MD5 as defined in RFC 1321, sections 2 and 3. */
module Md5Reference {
  import opened Md5Bits

  // ---------- words and bytes (section 2) ----------

  type Word32 = w: Bits | |w| == 32 witness Clear(32)

  newtype byte = n: int | 0 <= n < 256

  function Rotl(x: Word32, s: nat): Word32
    requires s <= 32
  {
    x[32 - s..] + x[..32 - s]
  }

  datatype Regs = Regs(a: Word32, b: Word32, c: Word32, d: Word32)

  // ---------- section 3.3 ----------

  const A0: nat := 0x67452301
  const B0: nat := 0xEFCDAB89
  const C0: nat := 0x98BADCFE
  const D0: nat := 0x10325476

  function Initial(): Regs {
    Regs(Word(32, A0), Word(32, B0), Word(32, C0), Word(32, D0))
  }

  // ---------- section 3.4 ----------

  function F(x: Word32, y: Word32, z: Word32): Word32 {
    Or(And(x, y), And(Not(x), z))
  }

  function G(x: Word32, y: Word32, z: Word32): Word32 {
    Or(And(x, z), And(y, Not(z)))
  }

  function H(x: Word32, y: Word32, z: Word32): Word32 {
    Xor(Xor(x, y), z)
  }

  function I(x: Word32, y: Word32, z: Word32): Word32 {
    Xor(y, Or(x, Not(z)))
  }

  // The function of the round that operation i belongs to.
  function Mix(i: nat, x: Word32, y: Word32, z: Word32): Word32 {
    if i < 16 then F(x, y, z) else if i < 32 then G(x, y, z) else if i < 48 then H(x, y, z) else I(x, y, z)
  }

  // The message word, the rotation and the sine constant of operation i.
  function K(i: nat): (k: nat)
    ensures k < 16
  {
    if i < 16 then i else if i < 32 then K2(i) else if i < 48 then K3(i) else K4(i)
  }

  function K2(i: nat): (k: nat)
    ensures k < 16
  {
    match i
    case 16 => 1 case 17 => 6 case 18 => 11 case 19 => 0 case 20 => 5 case 21 => 10 case 22 => 15 case 23 => 4
    case 24 => 9 case 25 => 14 case 26 => 3 case 27 => 8 case 28 => 13 case 29 => 2 case 30 => 7 case 31 => 12
    case _ => 0
  }

  function K3(i: nat): (k: nat)
    ensures k < 16
  {
    match i
    case 32 => 5 case 33 => 8 case 34 => 11 case 35 => 14 case 36 => 1 case 37 => 4 case 38 => 7 case 39 => 10
    case 40 => 13 case 41 => 0 case 42 => 3 case 43 => 6 case 44 => 9 case 45 => 12 case 46 => 15 case 47 => 2
    case _ => 0
  }

  function K4(i: nat): (k: nat)
    ensures k < 16
  {
    match i
    case 48 => 0 case 49 => 7 case 50 => 14 case 51 => 5 case 52 => 12 case 53 => 3 case 54 => 10 case 55 => 1
    case 56 => 8 case 57 => 15 case 58 => 6 case 59 => 13 case 60 => 4 case 61 => 11 case 62 => 2 case 63 => 9
    case _ => 0
  }

  function S(i: nat): (s: nat)
    ensures 0 < s < 32
  {
    var j := i % 4;
    if i < 16 then (if j == 0 then 7 else if j == 1 then 12 else if j == 2 then 17 else 22)
    else if i < 32 then (if j == 0 then 5 else if j == 1 then 9 else if j == 2 then 14 else 20)
    else if i < 48 then (if j == 0 then 4 else if j == 1 then 11 else if j == 2 then 16 else 23)
    else (if j == 0 then 6 else if j == 1 then 10 else if j == 2 then 15 else 21)
  }

  // The integer part of 2^32 times the absolute value of the sine of i + 1.
  function T(i: nat): nat {
    if i < 16 then T1(i) else if i < 32 then T2(i) else if i < 48 then T3(i) else T4(i)
  }

  function T1(i: nat): nat {
    match i
    case 0 => 0xd76aa478 case 1 => 0xe8c7b756 case 2 => 0x242070db case 3 => 0xc1bdceee
    case 4 => 0xf57c0faf case 5 => 0x4787c62a case 6 => 0xa8304613 case 7 => 0xfd469501
    case 8 => 0x698098d8 case 9 => 0x8b44f7af case 10 => 0xffff5bb1 case 11 => 0x895cd7be
    case 12 => 0x6b901122 case 13 => 0xfd987193 case 14 => 0xa679438e case 15 => 0x49b40821
    case _ => 0
  }

  function T2(i: nat): nat {
    match i
    case 16 => 0xf61e2562 case 17 => 0xc040b340 case 18 => 0x265e5a51 case 19 => 0xe9b6c7aa
    case 20 => 0xd62f105d case 21 => 0x02441453 case 22 => 0xd8a1e681 case 23 => 0xe7d3fbc8
    case 24 => 0x21e1cde6 case 25 => 0xc33707d6 case 26 => 0xf4d50d87 case 27 => 0x455a14ed
    case 28 => 0xa9e3e905 case 29 => 0xfcefa3f8 case 30 => 0x676f02d9 case 31 => 0x8d2a4c8a
    case _ => 0
  }

  function T3(i: nat): nat {
    match i
    case 32 => 0xfffa3942 case 33 => 0x8771f681 case 34 => 0x6d9d6122 case 35 => 0xfde5380c
    case 36 => 0xa4beea44 case 37 => 0x4bdecfa9 case 38 => 0xf6bb4b60 case 39 => 0xbebfbc70
    case 40 => 0x289b7ec6 case 41 => 0xeaa127fa case 42 => 0xd4ef3085 case 43 => 0x04881d05
    case 44 => 0xd9d4d039 case 45 => 0xe6db99e5 case 46 => 0x1fa27cf8 case 47 => 0xc4ac5665
    case _ => 0
  }

  function T4(i: nat): nat {
    match i
    case 48 => 0xf4292244 case 49 => 0x432aff97 case 50 => 0xab9423a7 case 51 => 0xfc93a039
    case 52 => 0x655b59c3 case 53 => 0x8f0ccc92 case 54 => 0xffeff47d case 55 => 0x85845dd1
    case 56 => 0x6fa87e4f case 57 => 0xfe2ce6e0 case 58 => 0xa3014314 case 59 => 0x4e0811a1
    case 60 => 0xf7537e82 case 61 => 0xbd3af235 case 62 => 0x2ad7d2bb case 63 => 0xeb86d391
    case _ => 0
  }

  // b + ((a + Mix(b, c, d) + X[k] + T[i]) <<< s)
  function Op(i: nat, a: Word32, b: Word32, c: Word32, d: Word32, x: Word32): Word32 {
    Plus(b, Rotl(Plus(Plus(Plus(a, Mix(i, b, c, d)), x), Word(32, T(i))), S(i)))
  }

  // Operation i on the registers: they take turns in the order A, D, C, B.
  function Step(i: nat, r: Regs, x: Word32): Regs {
    if i % 4 == 0 then r.(a := Op(i, r.a, r.b, r.c, r.d, x))
    else if i % 4 == 1 then r.(d := Op(i, r.d, r.a, r.b, r.c, x))
    else if i % 4 == 2 then r.(c := Op(i, r.c, r.d, r.a, r.b, x))
    else r.(b := Op(i, r.b, r.c, r.d, r.a, x))
  }

  // The first n operations on a block of sixteen words.
  function Steps(r: Regs, x: seq<Word32>, n: nat): Regs
    requires |x| == 16
  {
    if n == 0 then r else Step(n - 1, Steps(r, x, n - 1), x[K(n - 1)])
  }

  function Bits8(b: byte): (r: Bits)
    ensures |r| == 8
  {
    Word(8, b as nat)
  }

  // Four bytes as a word, the low-order byte first.
  function WordAt(b: seq<byte>, i: nat): Word32
    requires i + 4 <= |b|
  {
    Bits8(b[i]) + Bits8(b[i + 1]) + Bits8(b[i + 2]) + Bits8(b[i + 3])
  }

  function Words(block: seq<byte>): (x: seq<Word32>)
    requires |block| == 64
    ensures |x| == 16
  {
    seq(16, j requires 0 <= j < 16 => WordAt(block, 4 * j))
  }

  function Compress(r: Regs, block: seq<byte>): Regs
    requires |block| == 64
  {
    var q := Steps(r, Words(block), 64);
    Regs(Plus(r.a, q.a), Plus(r.b, q.b), Plus(r.c, q.c), Plus(r.d, q.d))
  }

  // All the whole blocks of a message, one after the other.
  function Fold(r: Regs, s: seq<byte>): Regs
    decreases |s|
  {
    if |s| < 64 then r else Fold(Compress(r, s[..64]), s[64..])
  }

  // ---------- sections 3.1 and 3.2 ----------

  // The low-order k bytes of a number, the low-order byte first.
  function NumberBytes(k: nat, n: nat): (b: seq<byte>)
    ensures |b| == k
  {
    if k == 0 then [] else [(n % 256) as byte] + NumberBytes(k - 1, n / 256)
  }

  // A 1-bit and then 0-bits: n bytes.
  function Padding(n: nat): (p: seq<byte>)
    requires n > 0
    ensures |p| == n
  {
    [0x80] + seq(n - 1, _ => 0)
  }

  // The fewest bytes that leave 8 short of a multiple of 64.
  function PaddingLength(n: nat): (k: nat)
    ensures 0 < k <= 64 && (n + k) % 64 == 56
  {
    if n % 64 < 56 then 56 - n % 64 else 120 - n % 64
  }

  // The padding and the length in bits, modulo 2^64.
  function Padded(msg: seq<byte>): seq<byte> {
    msg + Padding(PaddingLength(|msg|)) + NumberBytes(8, 8 * |msg|)
  }

  // ---------- section 3.5 ----------

  function WordBytes(w: Word32): (b: seq<byte>)
    ensures |b| == 4
  {
    NumberBytes(4, Value(w))
  }

  function Output(r: Regs): (b: seq<byte>)
    ensures |b| == 16
  {
    WordBytes(r.a) + WordBytes(r.b) + WordBytes(r.c) + WordBytes(r.d)
  }

  function Digest(msg: seq<byte>): seq<byte> {
    Output(Fold(Initial(), Padded(msg)))
  }

  lemma {:induction false} PaddedFits(msg: seq<byte>)
    ensures |Padded(msg)| % 64 == 0 && |msg| + 9 <= |Padded(msg)| <= |msg| + 72
  {
  }

  // ---------- folding ----------

  lemma {:induction false} FoldParts(r: Regs, a: seq<byte>, b: seq<byte>)
    requires |a| % 64 == 0
    ensures Fold(r, a + b) == Fold(Fold(r, a), b)
    decreases |a|
  {
    hide Compress;
    if |a| == 0 {
      assert a + b == b;
    } else {
      assert (a + b)[..64] == a[..64] && (a + b)[64..] == a[64..] + b;
      FoldParts(Compress(r, a[..64]), a[64..], b);
    }
  }

  lemma {:induction false} FoldOne(r: Regs, block: seq<byte>)
    requires |block| == 64
    ensures Fold(r, block) == Compress(r, block)
  {
    hide Compress;
    assert block[..64] == block;
  }
}
