/** Numbers as text: printing in decimal and hexadecimal, and the C library's reading of them. */
module ConfigNumbers {
  predicate Digit(c: char, base: int) {
    ('0' <= c <= '9' && c as int - '0' as int < base) || (base == 16 && ('a' <= c <= 'f' || 'A' <= c <= 'F'))
  }

  function DigitValue(c: char): (v: int)
    requires Digit(c, 16)
    ensures 0 <= v < 16
  {
    if c <= '9' then c as int - '0' as int
    else if c <= 'F' then c as int - 'A' as int + 10
    else c as int - 'a' as int + 10
  }

  ghost predicate Digits(s: string, base: int) {
    forall i :: 0 <= i < |s| ==> Digit(s[i], base)
  }

  // The number a row of digits stands for.
  function Value(s: string, base: int): (v: int)
    requires base == 10 || base == 16
    requires Digits(s, base)
    ensures v >= 0
  {
    if s == [] then 0 else Value(s[..|s| - 1], base) * base + DigitValue(s[|s| - 1])
  }

  // The digits at the front of a string.
  function DigitPrefix(s: string, base: int): (r: string)
    ensures |r| <= |s| && r == s[..|r|] && Digits(r, base)
    ensures |r| < |s| ==> !Digit(s[|r|], base)
  {
    if s == [] || !Digit(s[0], base) then [] else [s[0]] + DigitPrefix(s[1..], base)
  }

  lemma {:induction false} DigitPrefixIs(s: string, base: int, n: nat)
    requires n <= |s| && Digits(s[..n], base) && (n < |s| ==> !Digit(s[n], base))
    ensures DigitPrefix(s, base) == s[..n]
  {
    var r := DigitPrefix(s, base);
    if n > 0 {
      assert s[..n][0] == s[0];
      assert s[1..][..n - 1] == s[..n][1..];
      DigitPrefixIs(s[1..], base, n - 1);
      assert s[..n] == [s[0]] + s[1..][..n - 1];
    }
  }

  predicate Space(c: char) {
    c == ' ' || '\t' <= c <= '\r'
  }

  function SkipSpace(s: string): string {
    if s != [] && Space(s[0]) then SkipSpace(s[1..]) else s
  }

  // atoi and atoll, for numbers in range: white space, a sign, and digits up to anything else.
  function Atoi(s: string): int {
    var t := SkipSpace(s);
    if t != [] && t[0] == '-' then -Value(DigitPrefix(t[1..], 10), 10)
    else if t != [] && t[0] == '+' then Value(DigitPrefix(t[1..], 10), 10)
    else Value(DigitPrefix(t, 10), 10)
  }

  // strtoul and strtoull in base 16, for text that begins with 0x, in range.
  function StrtoulHex(s: string): int {
    if |s| >= 2 && s[0] == '0' && (s[1] == 'x' || s[1] == 'X') then Value(DigitPrefix(s[2..], 16), 16)
    else Value(DigitPrefix(s, 16), 16)
  }

  // ---------- words ----------

  const TWO32: int := 0x1_0000_0000
  const TWO64: int := 0x1_0000_0000_0000_0000

  // A number cut to a signed word.
  function Signed(n: int, two: int): int
    requires two > 0
  {
    var m := n % two;
    if m < two / 2 then m else m - two
  }

  // What strtol, strtoll and strtoul make of numbers that 64 bits cannot hold.
  function Clamped(n: int): int {
    if n < -(TWO64 / 2) then -(TWO64 / 2) else if n >= TWO64 / 2 then TWO64 / 2 - 1 else n
  }

  function ClampedHex(n: int): int {
    if n >= TWO64 then TWO64 - 1 else n
  }

  // ---------- printing ----------

  function DigitChar(v: int): (c: char)
    requires 0 <= v < 16
    ensures Digit(c, 16) && DigitValue(c) == v
    ensures v < 10 ==> Digit(c, 10)
  {
    if v < 10 then ('0' as int + v) as char else ('A' as int + v - 10) as char
  }

  // The digits printf prints for a number.
  function Print(n: int, base: int): (s: string)
    requires n >= 0 && (base == 10 || base == 16)
    ensures s != [] && Digits(s, base) && Value(s, base) == n
    decreases n
  {
    if n < base then
      var s := [DigitChar(n)];
      assert s[..0] == [];
      s
    else
      var t, d := Print(n / base, base), DigitChar(n % base);
      var s := t + [d];
      assert s[..|s| - 1] == t;
      s
  }

  // printf("%d", n) and printf("%lld", n)
  function PrintInt(n: int): string {
    if n < 0 then "-" + Print(-n, 10) else Print(n, 10)
  }

  lemma {:induction false} AtoiDigits(ds: string, rest: string)
    requires ds != [] && Digits(ds, 10) && (rest == [] || !Digit(rest[0], 10))
    ensures Atoi(ds + rest) == Value(ds, 10) && Atoi("-" + ds + rest) == -Value(ds, 10)
  {
    hide Value;
    hide DigitPrefix;
    DigitsThenRest(ds, rest, 10);
    var s, t := ds + rest, "-" + ds + rest;
    assert s[0] == ds[0] && Digit(s[0], 10) && SkipSpace(s) == s;
    assert t[0] == '-' && t[1..] == s && SkipSpace(t) == t;
  }

  // Reading a printed number back, whatever comes after it that is not a digit.
  lemma {:induction false} IntRoundTrip(n: int, rest: string)
    requires rest == [] || !Digit(rest[0], 10)
    ensures Atoi(PrintInt(n) + rest) == n
  {
    hide Atoi;
    hide Print;
    hide Value;
    AtoiDigits(Print(if n < 0 then -n else n, 10), rest);
  }

  lemma {:induction false} DigitsThenRest(ds: string, rest: string, base: int)
    requires Digits(ds, base) && (rest != [] ==> !Digit(rest[0], base))
    ensures DigitPrefix(ds + rest, base) == ds
  {
    assert (ds + rest)[..|ds|] == ds;
    DigitPrefixIs(ds + rest, base, |ds|);
  }

  lemma {:induction false} HexRoundTrip(n: int, rest: string)
    requires n >= 0 && (rest == [] || !Digit(rest[0], 16))
    ensures StrtoulHex("0x" + Print(n, 16) + rest) == n
  {
    hide Print;
    hide Value;
    hide DigitPrefix;
    var ds := Print(n, 16);
    DigitsThenRest(ds, rest, 16);
    assert ("0x" + ds + rest)[0] == '0' && ("0x" + ds + rest)[1] == 'x';
    assert ("0x" + ds + rest)[2..] == ds + rest;
  }

  // fromhex without strtoull: shift and or, digit by digit.
  method Fromhex(s: string) returns (val: int)
    ensures val == if |s| >= 2 && s[0] == '0' && (s[1] == 'x' || s[1] == 'X')
                   then Value(DigitPrefix(s[2..], 16), 16) % TWO64 else 0
  {
    hide DigitPrefix;
    hide Value;
    val := 0;
    if |s| == 0 || s[0] != '0' { return; }
    if |s| == 1 || (s[1] != 'x' && s[1] != 'X') { return; }
    ghost var t := s[2..];
    var p := 2;
    ValueNone();
    assert t[..0] == [];
    while p < |s| && Digit(s[p], 16)
      invariant 2 <= p <= |s| && Digits(t[..p - 2], 16)
      invariant val == Value(t[..p - 2], 16) % TWO64
    {
      // isxdigit characters below 'A' are decimal digits, the others have their value in the
      // low three bits, less one
      var d := if s[p] < 'A' then (s[p] as int) % 16 else 9 + (s[p] as int) % 8;
      LowBits(s[p]);
      assert t[..p - 1][..p - 2] == t[..p - 2] && t[p - 2] == s[p];
      ValueLast(t[..p - 1]);
      ShiftWraps(Value(t[..p - 2], 16), d);
      val := (val * 16) % TWO64 + d;
      p := p + 1;
    }
    DigitPrefixIs(t, 16, p - 2);
  }

  lemma {:induction false} LowBits(c: char)
    requires Digit(c, 16)
    ensures DigitValue(c) == if c < 'A' then (c as int) % 16 else 9 + (c as int) % 8
  {
  }

  lemma {:induction false} ValueNone()
    ensures Value([], 16) == 0
  {
  }

  lemma {:induction false} ValueLast(s: string)
    requires s != [] && Digits(s, 16)
    ensures Value(s, 16) == Value(s[..|s| - 1], 16) * 16 + DigitValue(s[|s| - 1])
  {
  }

  lemma {:induction false} RemainderIs(n: int, q: int, r: int)
    requires 0 <= r < TWO64 && n == TWO64 * q + r
    ensures n % TWO64 == r
  {
  }

  lemma {:induction false} ShiftWraps(v: int, d: int)
    requires v >= 0 && 0 <= d < 16
    ensures (v % TWO64 * 16) % TWO64 + d == (v * 16 + d) % TWO64
  {
    var q, r := v / TWO64, v % TWO64;
    var q', r' := r / (TWO64 / 16), r % (TWO64 / 16);
    RemainderIs(r * 16, q', r' * 16);
    RemainderIs(v * 16 + d, 16 * q + q', r' * 16 + d);
  }

  // ---------- what the readers make of other text ----------

  // White space in front of a number is skipped, and a sign is taken.
  lemma {:induction false} AtoiReads(w: string, sign: string, ds: string, rest: string)
    requires forall i :: 0 <= i < |w| ==> w[i] in {' ', '\t', '\n', '\U{0B}', '\U{0C}', '\r'}
    requires sign in {"", "+", "-"} && Digits(ds, 10) && (rest == [] || !Digit(rest[0], 10)) && (ds == [] ==> sign != "")
    ensures Atoi(w + sign + ds + rest) == if sign == "-" then -Value(ds, 10) else Value(ds, 10)
  {
    hide Value;
    hide DigitPrefix;
    hide SkipSpace;
    DigitsThenRest(ds, rest, 10);
    var t := sign + (ds + rest);
    assert w + sign + ds + rest == w + t;
    SignFirst(sign, ds, rest);
    SkipsTo(w, t);
    assert sign != "" ==> t[1..] == ds + rest;
    assert sign == "" ==> t == ds + rest;
  }

  lemma {:induction false} SignFirst(sign: string, ds: string, rest: string)
    requires sign in {"", "+", "-"} && Digits(ds, 10) && (ds == [] ==> sign != "")
    ensures var t := sign + (ds + rest);
      t != [] && !Space(t[0]) && (if sign == "" then t[0] != '-' && t[0] != '+' else t[0] == sign[0])
  {
    if sign == "" { assert (sign + (ds + rest))[0] == ds[0] && Digit(ds[0], 10); }
  }

  lemma {:induction false} SkipsTo(w: string, t: string)
    requires forall i :: 0 <= i < |w| ==> w[i] in {' ', '\t', '\n', '\U{0B}', '\U{0C}', '\r'}
    requires t != [] && !Space(t[0])
    ensures SkipSpace(w + t) == t
  {
    if w == [] {
      assert w + t == t;
    } else {
      assert '\U{0B}' as int == 11 && '\U{0C}' as int == 12 && '\t' as int == 9 && '\n' as int == 10 && '\r' as int == 13;
      assert (w + t)[0] == w[0] && (w + t)[1..] == w[1..] + t;
      SkipsTo(w[1..], t);
    }
  }

  // Text that does not begin with a number is 0.
  lemma {:induction false} AtoiOther(t: string)
    requires t == [] || (!Space(t[0]) && !Digit(t[0], 10) && t[0] != '-' && t[0] != '+')
    ensures Atoi(t) == 0
  {
  }

  // A number cut to a word is the one number of that word that is the same but for multiples of
  // the word's size.
  lemma {:induction false} Signed32(n: int, m: int)
    ensures Signed(n, TWO32) == m <==> -(TWO32 / 2) <= m < TWO32 / 2 && (n - m) % TWO32 == 0
  {
    var q, r := n / TWO32, n % TWO32;
    var k := (n - m) / TWO32;
    if Signed(n, TWO32) == m {
      assert n - m == TWO32 * (if r < TWO32 / 2 then q else q + 1);
    }
    if -(TWO32 / 2) <= m < TWO32 / 2 && (n - m) % TWO32 == 0 {
      assert n - m == TWO32 * k && n == TWO32 * q + r;
      assert m == TWO32 * (q - k) + r;
      assert q - k == 0 || q - k == -1;
    }
  }

  lemma {:induction false} Signed64(n: int, m: int)
    ensures Signed(n, TWO64) == m <==> -(TWO64 / 2) <= m < TWO64 / 2 && (n - m) % TWO64 == 0
  {
    var q, r := n / TWO64, n % TWO64;
    var k := (n - m) / TWO64;
    if Signed(n, TWO64) == m {
      assert n - m == TWO64 * (if r < TWO64 / 2 then q else q + 1);
    }
    if -(TWO64 / 2) <= m < TWO64 / 2 && (n - m) % TWO64 == 0 {
      assert n - m == TWO64 * k && n == TWO64 * q + r;
      assert m == TWO64 * (q - k) + r;
      assert q - k == 0 || q - k == -1;
    }
  }

  // A number beyond 64 bits becomes the nearest one that has them.
  lemma {:induction false} ClampedIs(n: int, m: int)
    ensures -0x8000_0000_0000_0000 <= Clamped(n) <= 0x7FFF_FFFF_FFFF_FFFF
    ensures -0x8000_0000_0000_0000 <= m <= 0x7FFF_FFFF_FFFF_FFFF ==>
      (m <= n ==> m <= Clamped(n)) && (n <= m ==> Clamped(n) <= m)
    ensures n >= 0 ==> 0 <= ClampedHex(n) <= 0xFFFF_FFFF_FFFF_FFFF
    ensures n >= 0 && 0 <= m <= 0xFFFF_FFFF_FFFF_FFFF ==>
      (m <= n ==> m <= ClampedHex(n)) && (n <= m ==> ClampedHex(n) <= m)
  {
  }
}
