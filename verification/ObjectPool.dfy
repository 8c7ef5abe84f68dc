/** The object pool. */
module ObjectPool {
  import opened Wrappers

  // Objects are constructed a chunk at a time, wait in a free list and are handed out and taken
  // back. An object is named by its chunk and its place in it.

  type Slot = (nat, nat)

  datatype Pool = Pool(
    free: seq<Slot>,
    chunks: seq<nat>,   // how many objects each chunk holds
    current: nat,
    max: nat,
    once: nat)          // how many objects to add when none is free

  // ---------- the operations ----------

  function Fresh(chunk: nat, n: nat): (s: seq<Slot>)
    ensures |s| == n && forall i :: 0 <= i < n ==> s[i] == (chunk, i)
  {
    seq(n, i requires 0 <= i < n => (chunk, i))
  }

  // inc: None if it fails; memory says whether the allocator has enough.
  function Grown(p: Pool, n: nat, memory: bool): (r: Option<Pool>)
  {
    if p.current >= p.max || !memory then None
    else
      var k := if p.current + n > p.max then p.max - p.current else n;
      Some(p.(free := p.free + Fresh(|p.chunks|, k), chunks := p.chunks + [k], current := p.current + k))
  }

  function Made(init: nat, max: nat, once: nat, memory: bool): Pool {
    var p := if max < init then Pool([], [], 0, init, 0) else Pool([], [], 0, max, once);
    match Grown(p, init, memory) case None => p case Some(q) => q
  }

  // What Create returns: an object, nothing, or what the front of an empty list happens to be.
  datatype Handed = Object(slot: Slot) | Nothing | Undefined

  function Create(p: Pool, memory: bool): (Handed, Pool) {
    if p.free != [] then (Object(p.free[0]), p.(free := p.free[1..]))
    else
      match Grown(p, p.once, memory)
      case None => (Nothing, p)
      case Some(q) => if q.free == [] then (Undefined, q) else (Object(q.free[0]), q.(free := q.free[1..]))
  }

  function Destroy(p: Pool, slot: Option<Slot>): Pool {
    match slot case None => p case Some(x) => p.(free := [x] + p.free)
  }

  function SetMax(p: Pool, max: nat): Pool {
    p.(max := if p.current >= max then p.current else max)
  }

  // A pool grows unless it has its maximum or memory is short: by so many objects, or as many as
  // are missing to the maximum, which go behind the free ones.
  lemma {:induction false} GrownMeans(p: Pool, n: nat, memory: bool)
    ensures Grown(p, n, memory).Some? <==> p.current < p.max && memory
    ensures Grown(p, n, memory).Some? ==>
      var q := Grown(p, n, memory).value;
      && q.current == (if p.current + n <= p.max then p.current + n else p.max) && q.max == p.max && q.once == p.once
      && |q.free| == |p.free| + (q.current - p.current) && q.free[..|p.free|] == p.free
      && q.chunks == p.chunks + [q.current - p.current]
  {
  }

  // What is given back last is handed out first, and at first what was constructed first.
  lemma {:induction false} LastReturned(p: Pool, x: Slot, memory: bool)
    ensures Create(Destroy(p, Some(x)), memory) == (Object(x), p) && Destroy(p, None) == p
    ensures p.free == [] && memory && p.current < p.max && p.once > 0 ==>
      Create(p, memory).0 == Object((|p.chunks|, 0))
  {
    assert ([x] + p.free)[1..] == p.free;
  }

  // A pool is made with room for its first objects at least, and then never grows by itself if no
  // more was asked for; its maximum never falls below what it has.
  lemma {:induction false} MadeMeans(init: nat, max: nat, once: nat, memory: bool)
    ensures var p := Made(init, max, once, memory);
      && p.max == (if max < init then init else max) && p.once == (if max < init then 0 else once)
      && p.current == |p.free| == (if memory then init else 0)
  {
  }

  lemma {:induction false} MaximumSet(p: Pool, max: nat)
    ensures SetMax(p, max) == p.(max := SetMax(p, max).max)
    ensures SetMax(p, max).max >= p.current && SetMax(p, max).max >= max
    ensures SetMax(p, max).max == p.current || SetMax(p, max).max == max
  {
  }

  // ---------- conservation ----------

  predicate Constructed(p: Pool, x: Slot) {
    x.0 < |p.chunks| && x.1 < p.chunks[x.0]
  }

  ghost predicate Distinct(s: seq<Slot>) {
    forall i, j :: 0 <= i < j < |s| ==> s[i] != s[j]
  }

  // Free objects and those handed out are disjoint, together they are all that were constructed,
  // and their number is the current one, which is at most the maximum.
  ghost predicate Conserved(p: Pool, out: set<Slot>) {
    && Distinct(p.free)
    && (forall x :: x in p.free ==> x !in out)
    && (forall x :: x in p.free || x in out <==> Constructed(p, x))
    && |p.free| + |out| == p.current <= p.max
  }

  lemma {:induction false} GrownConserves(p: Pool, out: set<Slot>, n: nat, memory: bool)
    requires Conserved(p, out)
    ensures Grown(p, n, memory).Some? ==> Conserved(Grown(p, n, memory).value, out)
  {
    var r := Grown(p, n, memory);
    if r.Some? {
      var q := r.value;
      var k := q.chunks[|p.chunks|];
      var added := Fresh(|p.chunks|, k);
      forall x: Slot
        ensures x in q.free <==> x in p.free || (x.0 == |p.chunks| && x.1 < k)
      {
        if x.0 == |p.chunks| && x.1 < k { assert added[x.1] == x; }
      }
    }
  }

  lemma {:induction false} HandConserves(p: Pool, out: set<Slot>)
    requires Conserved(p, out) && p.free != []
    ensures p.free[0] !in out && Conserved(p.(free := p.free[1..]), out + {p.free[0]})
  {
    assert p.free == [p.free[0]] + p.free[1..];
  }

  // An object that was not handed out is handed out, or none; only a pool that may still grow and
  // adds no objects has nothing defined to give.
  lemma {:induction false} CreateConserves(p: Pool, out: set<Slot>, memory: bool)
    requires Conserved(p, out)
    ensures var (h, q) := Create(p, memory);
      match h
      case Object(x) => x !in out && Conserved(q, out + {x})
      case Nothing => q == p && p.free == [] && (p.current == p.max || !memory)
      case Undefined => Conserved(q, out)
    ensures Create(p, memory).0 == Undefined <==> p.free == [] && memory && p.current < p.max && p.once == 0
  {
    hide Conserved;
    if p.free != [] {
      HandConserves(p, out);
    } else {
      MaximumHolds(p, out);
      GrownConserves(p, out, p.once, memory);
      var r := Grown(p, p.once, memory);
      if r.Some? && r.value.free != [] { HandConserves(r.value, out); }
    }
  }

  lemma {:induction false} MaximumHolds(p: Pool, out: set<Slot>)
    requires Conserved(p, out)
    ensures p.current <= p.max
  {
  }

  // Giving an object back conserves exactly if it is one that is out.
  lemma {:induction false} DestroyConserves(p: Pool, out: set<Slot>, x: Slot)
    requires Conserved(p, out)
    ensures Conserved(Destroy(p, Some(x)), out - {x}) <==> x in out
  {
    var q := Destroy(p, Some(x));
    assert q.free[1..] == p.free && q.free[0] == x;
    if x in out {
      forall i, j | 0 <= i < j < |q.free|
        ensures q.free[i] != q.free[j]
      {
        assert q.free[j] == p.free[j - 1];
      }
    } else {
      assert out - {x} == out;
    }
  }

  // ---------- runs ----------

  datatype Op = New(memory: bool) | Return(slot: Option<Slot>) | Limit(max: nat) | Step(once: nat)

  function Apply(p: Pool, op: Op): Pool {
    match op
    case New(memory) => Create(p, memory).1
    case Return(slot) => Destroy(p, slot)
    case Limit(max) => SetMax(p, max)
    case Step(once) => p.(once := once)
  }

  // Who holds what afterwards.
  function Holders(p: Pool, out: set<Slot>, op: Op): set<Slot> {
    match op
    case New(memory) => if Create(p, memory).0.Object? then out + {Create(p, memory).0.slot} else out
    case Return(slot) => if slot.Some? then out - {slot.value} else out
    case _ => out
  }

  // Callers return what they hold.
  predicate Honest(p: Pool, out: set<Slot>, ops: seq<Op>)
    decreases |ops|
  {
    ops == [] ||
    ((ops[0].Return? && ops[0].slot.Some? ==> ops[0].slot.value in out)
     && Honest(Apply(p, ops[0]), Holders(p, out, ops[0]), ops[1..]))
  }

  function Outcome(p: Pool, out: set<Slot>, ops: seq<Op>): (Pool, set<Slot>)
    decreases |ops|
  {
    if ops == [] then (p, out) else Outcome(Apply(p, ops[0]), Holders(p, out, ops[0]), ops[1..])
  }

  lemma {:induction false} StepConserves(p: Pool, out: set<Slot>, op: Op)
    requires Conserved(p, out)
    requires op.Return? && op.slot.Some? ==> op.slot.value in out
    ensures Conserved(Apply(p, op), Holders(p, out, op))
  {
    match op
    case New(memory) => CreateConserves(p, out, memory);
    case Return(slot) => if slot.Some? { DestroyConserves(p, out, slot.value); }
    case _ =>
  }

  lemma {:induction false} RunConserves(p: Pool, out: set<Slot>, ops: seq<Op>)
    requires Conserved(p, out) && Honest(p, out, ops)
    ensures Conserved(Outcome(p, out, ops).0, Outcome(p, out, ops).1)
    decreases |ops|
  {
    hide Conserved;
    hide Apply;
    hide Holders;
    if ops != [] {
      StepConserves(p, out, ops[0]);
      RunConserves(Apply(p, ops[0]), Holders(p, out, ops[0]), ops[1..]);
    }
  }

  // From any pool as it is made, whatever its callers do with what they hold.
  lemma {:induction false} PoolConserves(init: nat, max: nat, once: nat, memory: bool, ops: seq<Op>)
    requires Honest(Made(init, max, once, memory), {}, ops)
    ensures Conserved(Outcome(Made(init, max, once, memory), {}, ops).0, Outcome(Made(init, max, once, memory), {}, ops).1)
  {
    var p := if max < init then Pool([], [], 0, init, 0) else Pool([], [], 0, max, once);
    assert Conserved(p, {});
    GrownConserves(p, {}, init, memory);
    RunConserves(Made(init, max, once, memory), {}, ops);
  }

  // ---------- the class ----------

  class ObjectPoolAllocator {
    var free: seq<Slot>
    var chunks: seq<nat>
    var currentNum: nat
    var maxNum: nat
    var onceIncNum: nat

    ghost function State(): Pool
      reads this
    {
      Pool(free, chunks, currentNum, maxNum, onceIncNum)
    }

    constructor (initNum: nat, maxNum: nat, incNum: nat, memory: bool)
      ensures State() == Made(initNum, maxNum, incNum, memory)
    {
      free, chunks, currentNum, this.maxNum, onceIncNum := [], [], 0, maxNum, incNum;
      new;
      if this.maxNum < initNum {
        this.maxNum := initNum;
        onceIncNum := 0;
      }
      var ret := Inc(initNum, memory);
    }

    method SetMaxNum(max: nat)
      modifies this`maxNum
      ensures State() == SetMax(old(State()), max)
    {
      if currentNum >= max {
        maxNum := currentNum;
      } else {
        maxNum := max;
      }
    }

    method Inc(incNum: nat, memory: bool) returns (ret: int)
      modifies this`free, this`chunks, this`currentNum
      ensures ret == if Grown(old(State()), incNum, memory).Some? then 0 else -1
      ensures State() == match Grown(old(State()), incNum, memory) case None => old(State()) case Some(q) => q
    {
      if currentNum >= maxNum { return -1; }
      var n := incNum;
      if currentNum + n > maxNum { n := maxNum - currentNum; }
      if !memory { return -1; }
      ghost var before := free;
      var i := 0;
      while i < n
        invariant 0 <= i <= n && free == before + Fresh(|chunks|, n)[..i]
        invariant chunks == old(chunks) && currentNum == old(currentNum)
      {
        free := free + [(|chunks|, i)];
        assert Fresh(|chunks|, n)[..i + 1] == Fresh(|chunks|, n)[..i] + [(|chunks|, i)];
        i := i + 1;
      }
      assert Fresh(|chunks|, n)[..n] == Fresh(|chunks|, n);
      assert free == before + Fresh(|chunks|, n);
      chunks := chunks + [n];
      currentNum := currentNum + n;
      return 0;
    }

    // Defined unless the free list stays empty behind a successful inc.
    method CreateObject(memory: bool) returns (h: Handed)
      modifies this`free, this`chunks, this`currentNum
      ensures (h, State()) == Create(old(State()), memory)
    {
      if free == [] {
        var ret := Inc(onceIncNum, memory);
        if ret != 0 { return Nothing; }
      }
      if free == [] { return Undefined; }
      h := Object(free[0]);
      free := free[1..];
    }

    method DestroyObject(slot: Option<Slot>)
      modifies this`free
      ensures State() == Destroy(old(State()), slot)
    {
      if slot.Some? {
        free := [slot.value] + free;
      }
    }
  }
}
