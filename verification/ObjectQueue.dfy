/** The bounded queue between threads, and its last-in first-out variant. */
module ObjectQueue {
  import opened Wrappers

  // Every operation is one step under the queue's mutex.

  datatype Kind = Queue | Stack

  // push_back of the queue, push_front of the stack.
  function Pushed<T>(kind: Kind, data: seq<T>, value: T): seq<T> {
    if kind == Queue then data + [value] else [value] + data
  }

  predicate Refuses(size: nat, max: nat, limit: bool) {
    limit && size >= max
  }

  // What a run of pushes and pops leaves: Push adds a value, Pop takes the front one.
  datatype Op<T> = Push(value: T) | Pop

  function Contents<T>(kind: Kind, data: seq<T>, ops: seq<Op<T>>): seq<T>
    decreases |ops|
  {
    if ops == [] then data
    else
      match ops[0]
      case Push(v) => Contents(kind, Pushed(kind, data, v), ops[1..])
      case Pop => Contents(kind, if data == [] then [] else data[1..], ops[1..])
  }

  function Pops<T>(kind: Kind, data: seq<T>, ops: seq<Op<T>>): seq<T>
    decreases |ops|
  {
    if ops == [] then []
    else
      match ops[0]
      case Push(v) => Pops(kind, Pushed(kind, data, v), ops[1..])
      case Pop => if data == [] then Pops(kind, [], ops[1..]) else [data[0]] + Pops(kind, data[1..], ops[1..])
  }

  function Pushes<T>(ops: seq<Op<T>>): seq<T>
    decreases |ops|
  {
    if ops == [] then [] else (if ops[0].Push? then [ops[0].value] else []) + Pushes(ops[1..])
  }

  // The first of a row of operations and the others.
  lemma {:induction false} PushFirst<T>(kind: Kind, data: seq<T>, ops: seq<Op<T>>)
    requires ops != [] && ops[0].Push?
    ensures Contents(kind, data, ops) == Contents(kind, Pushed(kind, data, ops[0].value), ops[1..])
    ensures Pops(kind, data, ops) == Pops(kind, Pushed(kind, data, ops[0].value), ops[1..])
    ensures Pushes(ops) == [ops[0].value] + Pushes(ops[1..])
  {
  }

  lemma {:induction false} PopFirst<T>(kind: Kind, data: seq<T>, ops: seq<Op<T>>)
    requires ops != [] && ops[0].Pop?
    ensures Contents(kind, data, ops) == Contents(kind, if data == [] then [] else data[1..], ops[1..])
    ensures Pops(kind, data, ops) ==
      if data == [] then Pops(kind, [], ops[1..]) else [data[0]] + Pops(kind, data[1..], ops[1..])
    ensures Pushes(ops) == Pushes(ops[1..])
  {
    assert [] + Pushes(ops[1..]) == Pushes(ops[1..]);
  }

  // A queue gives out what it held and then what was put in, in that order.
  lemma {:induction false} FirstInFirstOut<T>(data: seq<T>, ops: seq<Op<T>>)
    ensures Pops(Queue, data, ops) + Contents(Queue, data, ops) == data + Pushes(ops)
    decreases |ops|
  {
    if ops == [] {
      assert [] + data == data + [];
    } else {
      hide Contents;
      hide Pops;
      hide Pushes;
      var rest := ops[1..];
      if ops[0].Push? {
        PushFirst(Queue, data, ops);
        FirstInFirstOut(data + [ops[0].value], rest);
        Regroup(data, [ops[0].value], Pushes(rest));
      } else {
        PopFirst(Queue, data, ops);
        FirstInFirstOut(if data == [] then [] else data[1..], rest);
        if data != [] {
          FrontTaken(data[0], data[1..], Pushes(rest), Pops(Queue, data[1..], rest), Contents(Queue, data[1..], rest));
          FirstAndRest(data);
        }
      }
    }
  }

  lemma {:induction false} FirstAndRest<T>(s: seq<T>)
    requires s != []
    ensures [s[0]] + s[1..] == s
  {
  }

  lemma {:induction false} FrontTaken<T>(front: T, data: seq<T>, more: seq<T>, out: seq<T>, left: seq<T>)
    requires out + left == data + more
    ensures ([front] + out) + left == ([front] + data) + more
  {
    Regroup([front], data, more);
    Regroup([front], out, left);
  }

  // How often x is among the values.
  ghost function Times<T>(s: seq<T>, x: T): nat {
    multiset(s)[x]
  }

  lemma {:induction false} TimesJoined<T>(a: seq<T>, b: seq<T>, x: T)
    ensures Times(a + b, x) == Times(a, x) + Times(b, x)
  {
  }

  // Every value given out or still held was there or was put in, as often as that; a stack only
  // changes the order.
  lemma {:induction false} NothingLost<T>(kind: Kind, data: seq<T>, ops: seq<Op<T>>, x: T)
    ensures Times(Pops(kind, data, ops), x) + Times(Contents(kind, data, ops), x)
      == Times(data, x) + Times(Pushes(ops), x)
    decreases |ops|
  {
    if ops == [] {
    } else {
      hide Times;
      hide Contents;
      hide Pops;
      hide Pushes;
      var rest := ops[1..];
      if ops[0].Push? {
        var v := ops[0].value;
        PushFirst(kind, data, ops);
        NothingLost(kind, Pushed(kind, data, v), rest, x);
        TimesJoined([v], Pushes(rest), x);
        TimesJoined([v], data, x);
        TimesJoined(data, [v], x);
      } else {
        PopFirst(kind, data, ops);
        NothingLost(kind, if data == [] then [] else data[1..], rest, x);
        if data != [] {
          FirstAndRest(data);
          TimesJoined([data[0]], data[1..], x);
          TimesJoined([data[0]], Pops(kind, data[1..], rest), x);
        }
      }
    }
  }

  // What was put on a stack comes off before everything it already held.
  lemma {:induction false} LastInFirstOut<T>(data: seq<T>, values: seq<T>)
    ensures Pops(Stack, data, PushAll(values) + PopAll(|values|)) == Reversed(values)
    ensures Contents(Stack, data, PushAll(values) + PopAll(|values|)) == data
    decreases |values|
  {
    if values == [] {
    } else {
      var v, rest := values[0], values[1..];
      var inner := PushAll<T>(rest) + PopAll(|rest|);
      assert PushAll(values) + PopAll(|values|) == [Push(v)] + (inner + [Pop]) by {
        PopLater<T>(|rest|);
      }
      LastInFirstOut([v] + data, rest);
      OneMorePop([v] + data, inner);
      assert ([Push(v)] + (inner + [Pop]))[1..] == inner + [Pop];
    }
  }

  function PushAll<T>(values: seq<T>): seq<Op<T>> {
    seq(|values|, i requires 0 <= i < |values| => Push(values[i]))
  }

  function PopAll<T>(n: nat): seq<Op<T>> {
    seq(n, _ => Pop)
  }

  function Reversed<T>(values: seq<T>): seq<T> {
    if values == [] then [] else Reversed(values[1..]) + [values[0]]
  }

  lemma PopLater<T>(n: nat)
    ensures PopAll<T>(n + 1) == PopAll<T>(n) + [Pop]
  {
  }

  lemma {:induction false} OneMorePop<T>(data: seq<T>, ops: seq<Op<T>>)
    ensures var left := Contents(Stack, data, ops);
      && Contents(Stack, data, ops + [Pop]) == (if left == [] then [] else left[1..])
      && Pops(Stack, data, ops + [Pop]) == Pops(Stack, data, ops) + (if left == [] then [] else [left[0]])
    decreases |ops|
  {
    if ops != [] {
      assert (ops + [Pop])[1..] == ops[1..] + [Pop];
      match ops[0]
      case Push(v) => OneMorePop(Pushed(Stack, data, v), ops[1..]);
      case Pop => OneMorePop(if data == [] then [] else data[1..], ops[1..]);
    }
  }

  class SyncObjectQueue<T> {
    const kind: Kind
    var data: seq<T>
    var max: nat
    var count: nat

    // What was put in and what was taken out since the queue was made.
    ghost var ops: seq<Op<T>>

    ghost predicate Valid()
      reads this
    {
      count == |data| && data == Contents(kind, [], ops)
    }

    constructor (kind: Kind, limit: nat)
      ensures Valid() && data == [] && max == limit && this.kind == kind && ops == []
    {
      this.kind, data, max, count, ops := kind, [], limit, 0, [];
    }

    method SetLimit(limit: nat)
      requires Valid()
      modifies this`max
      ensures Valid() && max == limit
    {
      max := limit;
    }

    // Put without its callback.
    method PutImplement(value: T, limit: bool) returns (ret: int)
      requires Valid()
      modifies this`data, this`count, this`ops
      ensures Valid()
      ensures ret == -1 <==> limit && |old(data)| >= max
      ensures ret == -1 ==> data == old(data) && ops == old(ops)
      ensures ret != -1 ==> ret == 0 && ops == old(ops) + [Push(value)]
      ensures ret != -1 ==> data == if kind == Queue then old(data) + [value] else [value] + old(data)
    {
      if limit && count >= max { return -1; }
      PushGoesLast([], ops, value);
      data := if kind == Queue then data + [value] else [value] + data;
      count := count + 1;
      ops := ops + [Push(value)];
      return 0;
    }

    // Get that does not wait.
    method Get() returns (ret: int, value: seq<T>)
      requires Valid()
      modifies this`data, this`count, this`ops
      ensures Valid()
      ensures old(data) == [] ==> ret == -1 && value == [] && data == [] && ops == old(ops)
      ensures old(data) != [] ==> ret == 0 && value == [old(data)[0]] && data == old(data)[1..] && ops == old(ops) + [Pop]
    {
      if |data| == 0 { return -1, []; }
      PopGoesLast([], ops);
      value := [data[0]];
      data := data[1..];
      count := count - 1;
      ops := ops + [Pop];
      return 0, value;
    }

    lemma PushGoesLast(start: seq<T>, done: seq<Op<T>>, value: T)
      ensures Contents(kind, start, done + [Push(value)]) == Pushed(kind, Contents(kind, start, done), value)
      decreases |done|
    {
      if done != [] {
        assert (done + [Push(value)])[1..] == done[1..] + [Push(value)];
        match done[0]
        case Push(v) => PushGoesLast(Pushed(kind, start, v), done[1..], value);
        case Pop => PushGoesLast(if start == [] then [] else start[1..], done[1..], value);
      }
    }

    lemma PopGoesLast(start: seq<T>, done: seq<Op<T>>)
      ensures var left := Contents(kind, start, done);
        Contents(kind, start, done + [Pop]) == (if left == [] then [] else left[1..])
      decreases |done|
    {
      if done != [] {
        assert (done + [Pop])[1..] == done[1..] + [Pop];
        match done[0]
        case Push(v) => PopGoesLast(Pushed(kind, start, v), done[1..]);
        case Pop => PopGoesLast(if start == [] then [] else start[1..], done[1..]);
      }
    }
  }
}
