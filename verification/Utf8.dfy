/** The UTF-8 encoder and the lead byte table, against RFC 3629, section 3. */
module Utf8 {
  // Bytes are characters below 256.

  predicate IsByte(c: char) {
    c as int < 256
  }

  predicate Bytes(s: string) {
    forall i :: 0 <= i < |s| ==> IsByte(s[i])
  }

  // ---------- the code ----------

  // utf8ByteTable: how many bytes a lead byte announces; 1 for what cannot lead a sequence.
  function ByteTable(lead: char): (n: nat)
    ensures 1 <= n <= 4
  {
    var b := lead as int;
    if 0xC2 <= b <= 0xDF then 2
    else if 0xE0 <= b <= 0xEF then 3
    else if 0xF0 <= b <= 0xF4 then 4
    else 1
  }

  function Length(input: nat): (n: nat)
    ensures n <= 4
  {
    if input < 0x80 then 1
    else if input < 0x800 then 2
    else if input < 0x1_0000 then 3
    else if input < 0x20_0000 then 4
    else 0
  }

  // (input | BYTE_MARK) & BYTE_MASK: the low six bits marked as a continuation.
  function Continuation(input: nat): char {
    (0x80 + input % 64) as char
  }

  // FIRST_BYTE_MARK
  function Mark(n: nat): nat {
    if n == 2 then 0xC0 else if n == 3 then 0xE0 else if n == 4 then 0xF0 else 0
  }

  // The bytes by which a code point is written.
  function Encoding(input: nat): (s: string)
    ensures |s| == Length(input)
  {
    var a, b, c := input / 64, input / 4096, input / 0x4_0000;
    if input < 0x80 then [input as char]
    else if input < 0x800 then [(Mark(2) + a) as char, Continuation(input)]
    else if input < 0x1_0000 then [(Mark(3) + b) as char, Continuation(a), Continuation(input)]
    else if input < 0x20_0000 then [(Mark(4) + c) as char, Continuation(b), Continuation(a), Continuation(input)]
    else []
  }

  // ConvertUTF32ToUTF8: the bytes are written from the last to the first.
  method ConvertUTF32ToUTF8(input: nat, output: array<char>) returns (length: nat)
    requires output.Length >= 4
    modifies output
    ensures length == Length(input)
    ensures output[..length] == Encoding(input) && output[length..] == old(output[length..])
  {
    if input < 0x80 {
      length := 1;
    } else if input < 0x800 {
      length := 2;
    } else if input < 0x1_0000 {
      length := 3;
    } else if input < 0x20_0000 {
      length := 4;
    } else {
      length := 0;
      return;
    }
    var at, left := length, input;
    if length >= 4 {
      at := at - 1;
      output[at] := Continuation(left);
      left := left / 64;
    }
    if length >= 3 {
      at := at - 1;
      output[at] := Continuation(left);
      left := left / 64;
    }
    if length >= 2 {
      at := at - 1;
      output[at] := Continuation(left);
      left := left / 64;
    }
    at := at - 1;
    output[at] := (left + Mark(length)) as char;
  }

  // ---------- RFC 3629, section 3 ----------

  predicate Continues(c: char) {
    0x80 <= c as int < 0xC0
  }

  // The value of a sequence of n bytes by its bit pattern, whether or not it is the shortest.
  function Pattern(s: string): (v: int)
  {
    var n := |s|;
    if n == 1 && s[0] as int < 0x80 then s[0] as int
    else if n == 2 && 0xC0 <= s[0] as int < 0xE0 && Continues(s[1]) then
      (s[0] as int - 0xC0) * 64 + (s[1] as int - 0x80)
    else if n == 3 && 0xE0 <= s[0] as int < 0xF0 && Continues(s[1]) && Continues(s[2]) then
      ((s[0] as int - 0xE0) * 64 + (s[1] as int - 0x80)) * 64 + (s[2] as int - 0x80)
    else if n == 4 && 0xF0 <= s[0] as int < 0xF8 && Continues(s[1]) && Continues(s[2]) && Continues(s[3]) then
      (((s[0] as int - 0xF0) * 64 + (s[1] as int - 0x80)) * 64 + (s[2] as int - 0x80)) * 64 + (s[3] as int - 0x80)
    else -1
  }

  // What is written decodes to the code point it was written for.
  lemma {:induction false} EncodingDecodes(input: nat)
    requires input < 0x20_0000
    ensures Pattern(Encoding(input)) == input
  {
    var a, b, c := input / 64, input / 4096, input / 0x4_0000;
    assert b == a / 64 && c == b / 64;
  }

  // No sequence that means the same is shorter.
  lemma {:induction false} EncodingShortest(input: nat, s: string)
    requires input < 0x20_0000 && Pattern(s) == input
    ensures |Encoding(input)| <= |s|
    ensures |Encoding(input)| == |s| ==> Encoding(input) == s
  {
    if |s| == |Encoding(input)| { SameLengthSame(input, s); }
  }

  lemma {:induction false} SameLengthSame(input: nat, s: string)
    requires input < 0x20_0000 && Pattern(s) == input && |s| == Length(input)
    ensures Encoding(input) == s
  {
    if |s| == 2 {
      SixBits(s[0] as int - 0xC0, s[1] as int - 0x80);
    } else if |s| == 3 {
      SameThree(input, s);
    } else if |s| == 4 {
      SameFour(input, s);
    }
  }

  lemma {:induction false} SameThree(input: nat, s: string)
    requires |s| == 3 && Pattern(s) == input && Length(input) == 3
    ensures Encoding(input) == s
  {
    var q := (s[0] as int - 0xE0) * 64 + (s[1] as int - 0x80);
    SixBits(s[0] as int - 0xE0, s[1] as int - 0x80);
    SixBits(q, s[2] as int - 0x80);
    Twelve(input);
  }

  lemma {:induction false} SameFour(input: nat, s: string)
    requires |s| == 4 && Pattern(s) == input && Length(input) == 4
    ensures Encoding(input) == s
  {
    var q := (s[0] as int - 0xF0) * 64 + (s[1] as int - 0x80);
    var p := q * 64 + (s[2] as int - 0x80);
    SixBits(s[0] as int - 0xF0, s[1] as int - 0x80);
    SixBits(q, s[2] as int - 0x80);
    SixBits(p, s[3] as int - 0x80);
    Twelve(input);
  }

  lemma {:induction false} Twelve(n: nat)
    ensures n / 4096 == n / 64 / 64 && n / 0x4_0000 == n / 64 / 64 / 64
  {
  }

  lemma {:induction false} SixBits(q: int, d: int)
    requires 0 <= d < 64
    ensures (q * 64 + d) / 64 == q && (q * 64 + d) % 64 == d
  {
  }

  // The table announces the length that was written exactly for these.
  lemma {:induction false} TableMatches(input: nat)
    requires input < 0x20_0000
    ensures ByteTable(Encoding(input)[0]) == Length(input) <==> input < 0x14_0000
  {
  }

  // A text whose lead bytes are followed by as many continuation bytes as the table announces.
  predicate Whole(s: string)
    decreases |s|
  {
    s == [] ||
    (var n := ByteTable(s[0]);
     n <= |s| && (forall i :: 1 <= i < n ==> s[i] as int >= 0x80) && Whole(s[n..]))
  }

  function Text(points: seq<nat>): string {
    if points == [] then [] else Encoding(points[0]) + Text(points[1..])
  }

  // Every text of code points in the range of the standard is one.
  lemma {:induction false} TextWhole(points: seq<nat>)
    requires forall i :: 0 <= i < |points| ==> points[i] < 0x11_0000
    ensures Whole(Text(points))
    decreases |points|
  {
    if points != [] {
      var e, rest := Encoding(points[0]), Text(points[1..]);
      TextWhole(points[1..]);
      TableMatches(points[0]);
      assert (e + rest)[|e|..] == rest;
      assert forall i :: 1 <= i < |e| ==> (e + rest)[i] == e[i];
    }
  }
}
