/** The two growing buffers: the chunked element array of a list and the string buffer of the
    scanner and parser. Memory given back by realloc is the old memory up to the smaller size. */
module ConfigBuffers {
  const CHUNK_SIZE: int := 16

  // The next multiple of the chunk size.
  function Chunks(n: int): int {
    (n + CHUNK_SIZE - 1) / CHUNK_SIZE * CHUNK_SIZE
  }

  method Realloc<T(0)>(old_: array<T>, size: nat) returns (a: array<T>)
    ensures fresh(a) && a.Length == size
    ensures forall i :: 0 <= i < size && i < old_.Length ==> a[i] == old_[i]
  {
    a := new T[size];
    var i := 0;
    while i < size && i < old_.Length
      invariant 0 <= i <= size && i <= old_.Length
      invariant forall j :: 0 <= j < i ==> a[j] == old_[j]
    {
      a[i] := old_[i];
      i := i + 1;
    }
  }

  // config_list_t
  class List {
    var elements: array<int>
    var length: nat

    // Enough chunks for every element are there, whatever was added and removed before.
    ghost predicate Valid()
      reads this
    {
      Chunks(length) <= elements.Length
    }

    ghost function Contents(): seq<int>
      reads this, elements
      requires Valid()
    {
      elements[..length]
    }

    constructor ()
      ensures Valid() && Contents() == [] && fresh(elements)
    {
      elements := new int[0];
      length := 0;
    }

    // __config_list_add: memory is asked for only at a chunk boundary, and a list that has
    // shrunk in the meantime may even be given less than it had.
    method Add(setting: int)
      requires Valid()
      modifies this, elements
      ensures Valid() && (fresh(elements) || elements == old(elements))
      ensures Contents() == old(Contents()) + [setting]
    {
      hide Chunks;
      ghost var before := Contents();
      ChunksEnough(length);
      if length % CHUNK_SIZE == 0 {
        elements := Realloc(elements, length + CHUNK_SIZE);
      }
      assert elements[..length] == before;
      elements[length] := setting;
      length := length + 1;
      assert elements[..length] == before + [setting];
    }

    // __config_list_remove: what follows moves down one place.
    method Remove(idx: nat) returns (removed: int)
      requires Valid() && idx < length
      modifies this, elements
      ensures Valid() && elements == old(elements)
      ensures removed == old(Contents()[idx])
      ensures Contents() == old(Contents()[..idx] + Contents()[idx + 1..])
    {
      hide Chunks;
      ghost var all := elements[..];
      ChunksLess(length);
      removed := elements[idx];
      Memmove(elements, idx, idx + 1, length - 1 - idx);
      MovedDown(all, idx, length);
      assert elements[..][..length - 1] == elements[..length - 1] && all[..length] == old(elements[..length]);
      length := length - 1;
    }
  }

  // A list that does not end at a chunk boundary has room for one more.
  lemma {:induction false} ChunksEnough(n: nat)
    ensures n <= Chunks(n)
    ensures n % CHUNK_SIZE == 0 ==> Chunks(n + 1) == n + CHUNK_SIZE
    ensures n % CHUNK_SIZE != 0 ==> Chunks(n + 1) == Chunks(n) && n < Chunks(n)
  {
  }

  lemma {:induction false} ChunksLess(n: int)
    requires n > 0
    ensures n <= Chunks(n) && Chunks(n - 1) <= Chunks(n)
  {
  }

  lemma {:induction false} MovedDown(all: seq<int>, idx: nat, length: nat)
    requires idx < length <= |all|
    ensures (all[..idx] + all[idx + 1..length] + all[length - 1..])[..length - 1]
      == all[..length][..idx] + all[..length][idx + 1..]
  {
  }

  // memmove within an array, towards the front.
  method Memmove<T>(a: array<T>, dst: nat, src: nat, n: nat)
    requires dst <= src && src + n <= a.Length
    modifies a
    ensures a[..] == old(a[..dst] + a[src..src + n] + a[dst + n..])
  {
    ghost var all := a[..];
    ghost var part := all[src..src + n];
    var i := 0;
    while i < n
      invariant 0 <= i <= n
      invariant forall j :: 0 <= j < a.Length ==> a[j] == if dst <= j < dst + i then part[j - dst] else all[j]
    {
      assert a[src + i] == all[src + i] == part[i];
      a[dst + i] := a[src + i];
      i := i + 1;
    }
    MovedIs(all, a[..], dst, part);
  }

  lemma {:induction false} MovedIs<T>(s: seq<T>, t: seq<T>, dst: nat, part: seq<T>)
    requires dst + |part| <= |s| == |t|
    requires forall j :: 0 <= j < |s| ==> t[j] == if dst <= j < dst + |part| then part[j - dst] else s[j]
    ensures t == s[..dst] + part + s[dst + |part|..]
  {
  }

  // memcpy of a string with its terminating NUL behind the first characters of a buffer.
  method Strcpy(a: array<char>, at: nat, text: string)
    requires at + |text| < a.Length
    modifies a
    ensures a[..at + |text|] == old(a[..at]) + text && a[at + |text|] == '\0'
  {
    ghost var before := a[..at];
    var i := 0;
    while i < |text|
      invariant 0 <= i <= |text|
      invariant a[..at + i] == before + text[..i]
    {
      a[at + i] := text[i];
      assert text[..i + 1] == text[..i] + [text[i]];
      assert a[..at + i + 1] == a[..at + i] + [text[i]];
      i := i + 1;
    }
    assert text[..i] == text;
    a[at + |text|] := '\0';
  }

  const STRING_BLOCK_SIZE: int := 64

  // strbuf_t: a string with its terminating NUL in a buffer of whole blocks.
  class StrBuf {
    var buffer: array<char>
    var length: nat
    var capacity: nat

    ghost predicate Valid()
      reads this, buffer
    {
      && capacity == buffer.Length && capacity % STRING_BLOCK_SIZE == 0
      && (capacity == 0 ==> length == 0)
      && (capacity > 0 ==> length < capacity && buffer[length] == '\0')
    }

    ghost function Contents(): string
      reads this, buffer
      requires Valid()
    {
      buffer[..length]
    }

    constructor ()
      ensures Valid() && Contents() == [] && fresh(buffer)
    {
      buffer := new char[0];
      length, capacity := 0, 0;
    }

    // strbuf_append; the mask in the source clears the low six bits.
    method Append(text: string)
      requires Valid()
      modifies this, buffer
      ensures Valid() && (fresh(buffer) || buffer == old(buffer))
      ensures Contents() == old(Contents()) + text
    {
      ghost var before := Contents();
      var len := |text|;
      var newlen := length + len + 1;
      if newlen > capacity {
        capacity := (newlen + (STRING_BLOCK_SIZE - 1)) / STRING_BLOCK_SIZE * STRING_BLOCK_SIZE;
        buffer := Realloc(buffer, capacity);
      }
      assert buffer[..length] == before;
      Strcpy(buffer, length, text);
      length := length + len;
    }

    // strbuf_release: the string, or the null pointer if there never was one, and a new start.
    method Release() returns (isNull: bool, s: string)
      requires Valid()
      modifies this
      ensures Valid() && Contents() == [] && fresh(buffer)
      ensures s == old(Contents()) && (isNull ==> s == [])
      ensures isNull == (old(capacity) == 0)
    {
      isNull, s := capacity == 0, buffer[..length];
      buffer := new char[0];
      length, capacity := 0, 0;
    }
  }
}
