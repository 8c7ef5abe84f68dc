/** Machine words as their bits, the low-order bit first, so that words of two widths can be
    compared bit by bit. */
module Md5Bits {
  type Bits = seq<bool>

  // ---------- bitwise operations ----------

  function Not(x: Bits): (r: Bits)
    ensures |r| == |x| && forall i :: 0 <= i < |x| ==> r[i] == !x[i]
  {
    seq(|x|, i requires 0 <= i < |x| => !x[i])
  }

  function And(x: Bits, y: Bits): (r: Bits)
    requires |x| == |y|
    ensures |r| == |x| && forall i :: 0 <= i < |x| ==> r[i] == (x[i] && y[i])
  {
    seq(|x|, i requires 0 <= i < |x| => x[i] && y[i])
  }

  function Or(x: Bits, y: Bits): (r: Bits)
    requires |x| == |y|
    ensures |r| == |x| && forall i :: 0 <= i < |x| ==> r[i] == (x[i] || y[i])
  {
    seq(|x|, i requires 0 <= i < |x| => x[i] || y[i])
  }

  function Xor(x: Bits, y: Bits): (r: Bits)
    requires |x| == |y|
    ensures |r| == |x| && forall i :: 0 <= i < |x| ==> r[i] == (x[i] != y[i])
  {
    seq(|x|, i requires 0 <= i < |x| => x[i] != y[i])
  }

  function Clear(n: nat): (r: Bits)
    ensures |r| == n && forall i :: 0 <= i < n ==> !r[i]
  {
    seq(n, _ => false)
  }

  function Shl(x: Bits, n: nat): (r: Bits)
    requires n <= |x|
    ensures |r| == |x|
  {
    Clear(n) + x[..|x| - n]
  }

  function Shr(x: Bits, n: nat): (r: Bits)
    requires n <= |x|
    ensures |r| == |x|
  {
    x[n..] + Clear(n)
  }

  // ---------- numbers ----------

  function Pow2(k: nat): (p: nat)
    ensures p > 0
  {
    if k == 0 then 1 else 2 * Pow2(k - 1)
  }

  // The k-bit word of a number, modulo 2^k.
  function Word(k: nat, n: nat): (r: Bits)
    ensures |r| == k
  {
    if k == 0 then [] else [n % 2 == 1] + Word(k - 1, n / 2)
  }

  function Value(x: Bits): nat {
    if |x| == 0 then 0 else (if x[0] then 1 else 0) + 2 * Value(x[1..])
  }

  lemma {:induction false} ValueBound(x: Bits)
    ensures Value(x) < Pow2(|x|)
  {
    if |x| > 0 {
      ValueBound(x[1..]);
    }
  }

  lemma {:induction false} Doubling(j: nat)
    ensures Pow2(j + 1) == 2 * Pow2(j)
  {
  }

  lemma {:induction false} ValueStep(x: Bits)
    requires x != []
    ensures Value(x) == (if x[0] then 1 else 0) + 2 * Value(x[1..])
  {
  }

  lemma {:induction false} DoubleProduct(p: nat, q: nat, v: nat)
    requires p == 2 * q
    ensures p * v == 2 * (q * v)
  {
  }

  lemma {:induction false} ValueParts(x: Bits, j: nat)
    requires j <= |x|
    ensures Value(x) == Value(x[..j]) + Pow2(j) * Value(x[j..])
  {
    if j == 0 {
      assert x[0..] == x;
    } else {
      hide Value;
      hide Pow2;
      var tail := x[1..];
      ValueParts(tail, j - 1);
      assert tail[..j - 1] == x[..j][1..] && tail[j - 1..] == x[j..];
      ValueStep(x);
      ValueStep(x[..j]);
      Doubling(j - 1);
      DoubleProduct(Pow2(j), Pow2(j - 1), Value(x[j..]));
    }
  }

  // Unsigned addition in the width of the operands.
  function Plus(x: Bits, y: Bits): (r: Bits)
    requires |x| == |y|
    ensures |r| == |x|
  {
    Word(|x|, Value(x) + Value(y))
  }

  lemma {:induction false} WordOfValue(x: Bits)
    ensures Word(|x|, Value(x)) == x
  {
    if |x| > 0 {
      WordOfValue(x[1..]);
    }
  }

  // Adding a multiple of 2^k changes nothing.
  lemma {:induction false} WordWraps(k: nat, n: nat, m: nat)
    ensures Word(k, n + Pow2(k) * m) == Word(k, n)
  {
    if k > 0 {
      var h := Pow2(k - 1) * m;
      assert Pow2(k) * m == 2 * h;
      assert (n + 2 * h) / 2 == n / 2 + h && (n + 2 * h) % 2 == n % 2;
      WordWraps(k - 1, n / 2, m);
    }
  }

  // A word's number is the number modulo 2^k.
  lemma {:induction false} ValueOfWord(k: nat, n: nat) returns (m: nat)
    ensures n == Value(Word(k, n)) + Pow2(k) * m
    ensures Value(Word(k, n)) < Pow2(k)
  {
    if k == 0 {
      m := n;
    } else {
      m := ValueOfWord(k - 1, n / 2);
      var w := Word(k, n);
      assert w[1..] == Word(k - 1, n / 2);
      assert Pow2(k) * m == 2 * (Pow2(k - 1) * m);
    }
  }

  lemma {:induction false} PlusWord(k: nat, a: nat, b: nat)
    ensures Plus(Word(k, a), Word(k, b)) == Word(k, a + b)
  {
    var m := ValueOfWord(k, a);
    var n := ValueOfWord(k, b);
    var v := Value(Word(k, a)) + Value(Word(k, b));
    assert a + b == v + Pow2(k) * (m + n) by {
      assert Pow2(k) * (m + n) == Pow2(k) * m + Pow2(k) * n;
    }
    WordWraps(k, v, m + n);
  }

  lemma {:induction false} PlusAssociates(x: Bits, y: Bits, z: Bits)
    requires |x| == |y| == |z|
    ensures Plus(x, Plus(y, z)) == Plus(Plus(x, y), z)
  {
    WordOfValue(x);
    WordOfValue(z);
    PlusWord(|x|, Value(x), Value(y) + Value(z));
    PlusWord(|x|, Value(x) + Value(y), Value(z));
  }

  lemma {:induction false} PlusCommutes(x: Bits, y: Bits)
    requires |x| == |y|
    ensures Plus(x, y) == Plus(y, x)
  {
  }

  // ---------- the low-order part ----------

  lemma {:induction false} LowWord(k: nat, j: nat, n: nat)
    requires j <= k
    ensures Word(k, n)[..j] == Word(j, n)
  {
    if j > 0 {
      LowWord(k - 1, j - 1, n / 2);
      assert Word(k, n)[..j] == [n % 2 == 1] + Word(k - 1, n / 2)[..j - 1];
    }
  }

  lemma {:induction false} LowPlus(x: Bits, y: Bits, j: nat)
    requires |x| == |y| && j <= |x|
    ensures Plus(x, y)[..j] == Plus(x[..j], y[..j])
  {
    var k := |x|;
    WordOfValue(x);
    WordOfValue(y);
    LowWord(k, j, Value(x));
    LowWord(k, j, Value(y));
    LowWord(k, j, Value(x) + Value(y));
    PlusWord(j, Value(x), Value(y));
  }

  // A word of ones followed by zeros, as a mask.
  lemma {:induction false} Mask(k: nat, j: nat, i: nat)
    requires j <= k && i < k
    ensures Word(k, Pow2(j) - 1)[i] == (i < j)
    decreases i
  {
    if i > 0 {
      if j > 0 {
        assert (Pow2(j) - 1) / 2 == Pow2(j - 1) - 1;
        Mask(k - 1, j - 1, i - 1);
      } else {
        Mask(k - 1, 0, i - 1);
      }
    } else if j > 0 {
      assert Pow2(j) - 1 == 2 * (Pow2(j - 1) - 1) + 1;
    }
  }

  lemma {:induction false} OrParts(p: bool, x: Bits, q: bool, y: Bits)
    requires |x| == |y|
    ensures Or([p] + x, [q] + y) == [p || q] + Or(x, y)
  {
  }

  lemma {:induction false} WordParts(k: nat, bit: nat, n: nat)
    requires k > 0 && bit < 2
    ensures Word(k, bit + 2 * n) == [bit == 1] + Word(k - 1, n)
  {
    assert (bit + 2 * n) / 2 == n && (bit + 2 * n) % 2 == bit;
  }

  lemma {:induction false} OrStep(k: nat, bit: nat, n: nat, h: nat)
    requires k > 0 && bit < 2 && Or(Word(k - 1, n), Word(k - 1, h)) == Word(k - 1, n + h)
    ensures Or(Word(k, bit + 2 * n), Word(k, 2 * h)) == Word(k, bit + 2 * (n + h))
  {
    hide Word;
    hide Or;
    WordParts(k, bit, n);
    WordParts(k, 0, h);
    WordParts(k, bit, n + h);
    OrParts(bit == 1, Word(k - 1, n), false, Word(k - 1, h));
  }

  // Or of three low bits and a number shifted past them is their sum.
  lemma {:induction false} OrOctal(k: nat, a: nat, b: nat)
    requires k >= 3 && a < 8
    ensures Or(Word(k, a), Word(k, 8 * b)) == Word(k, a + 8 * b)
  {
    hide Word;
    ZeroWord(k - 3);
    assert Or(Word(k - 3, 0), Word(k - 3, b)) == Word(k - 3, b);
    OrStep(k - 2, a / 4, 0, b);
    OrStep(k - 1, a / 2 % 2, a / 4, 2 * b);
    OrStep(k, a % 2, a / 2, 4 * b);
  }

  lemma {:induction false} ZeroWord(k: nat)
    ensures Word(k, 0) == Clear(k)
  {
    if k > 0 {
      ZeroWord(k - 1);
    }
  }
}
