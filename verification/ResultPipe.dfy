/** The methods by which workers and the event thread pass results on. */
module ResultPipe {
  import opened Wrappers
  import opened ObjectQueue
  import opened Wakeup

  // The event thread's side of the socket pair is the pipe handler and the drain loop it calls; the
  // worker's side is a put followed by its notification.

  function FateNow<M(!new)>(m: Option<M>, handler: M -> bool, encode: M -> int): Fate {
    match m
    case None => FateOf(m, false, 0)
    case Some(v) => FateOf(m, handler(v), encode(v))
  }

  datatype Drained<M> = Drained(log: seq<(Option<M>, Fate)>, left: seq<Option<M>>, ret: int)

  // What the drain loop does to a queue nobody adds to meanwhile.
  function Drain<M(!new)>(queue: seq<Option<M>>, handler: M -> bool, encode: M -> int): Drained<M>
    decreases |queue|
  {
    if queue == [] then Drained([], [], 0)
    else
      var fate := FateNow(queue[0], handler, encode);
      if fate == EncodeError then Drained([(queue[0], fate)], queue[1..], -1)
      else
        var d := Drain(queue[1..], handler, encode);
        d.(log := [(queue[0], fate)] + d.log)
  }

  lemma {:induction false} DrainOne<M(!new)>(queue: seq<Option<M>>, handler: M -> bool, encode: M -> int)
    ensures Drain(queue, handler, encode)
      == if queue == [] then Drained([], [], 0)
         else
           var fate := FateNow(queue[0], handler, encode);
           if fate == EncodeError then Drained([(queue[0], fate)], queue[1..], -1)
           else
             var d := Drain(queue[1..], handler, encode);
             Drained([(queue[0], fate)] + d.log, d.left, d.ret)
  {
  }

  lemma {:induction false} FateNowMeans<M(!new)>(m: Option<M>, handler: M -> bool, encode: M -> int)
    ensures FateMeans(m, FateNow(m, handler, encode), handler, encode)
  {
  }

  // It takes messages from the front and deals with each as its handler and its coder say.
  lemma {:induction false} DrainMeans<M(!new)>(queue: seq<Option<M>>, handler: M -> bool, encode: M -> int)
    ensures var d := Drain(queue, handler, encode);
      && Messages(d.log) + d.left == queue
      && AllMean(d.log, handler, encode)
    decreases |queue|
  {
    hide FateNow;
    hide Drain;
    DrainOne(queue, handler, encode);
    hide FateMeans;
    if queue != [] {
      var d := Drain(queue, handler, encode);
      FateNowMeans(queue[0], handler, encode);
      DrainMeans(queue[1..], handler, encode);
      assert Messages(d.log) == [queue[0]] + Messages(d.log[1..]);
      assert queue == [queue[0]] + queue[1..];
    }
  }

  // It empties the queue exactly if every message can be encoded; otherwise it stops behind the
  // first that cannot.
  lemma {:induction false} DrainStops<M(!new)>(queue: seq<Option<M>>, handler: M -> bool, encode: M -> int)
    ensures var d := Drain(queue, handler, encode);
      && (d.ret == 0 <==> forall i :: 0 <= i < |queue| ==> FateNow(queue[i], handler, encode) != EncodeError)
      && (d.ret == 0 ==> d.left == [])
      && (d.ret != 0 ==> d.ret == -1 && d.log != [] && d.log[|d.log| - 1].1 == EncodeError)
      && (forall i :: 0 <= i < |d.log| - 1 ==> d.log[i].1 != EncodeError)
    decreases |queue|
  {
    hide FateNow;
    hide Drain;
    DrainOne(queue, handler, encode);
    if queue != [] && FateNow(queue[0], handler, encode) != EncodeError {
      var rest := queue[1..];
      DrainStops(rest, handler, encode);
      assert forall i :: 1 <= i < |queue| ==> queue[i] == rest[i - 1];
      assert forall i :: 0 <= i < |rest| ==> rest[i] == queue[i + 1];
    }
  }

  // The steps of the protocol that make up an undisturbed drain loop.
  function DrainSteps<M(!new)>(queue: seq<Option<M>>, handler: M -> bool, encode: M -> int): seq<Step<M>>
    decreases |queue|
  {
    if queue == [] then [Take(false, 0)]
    else
      var step := match queue[0] case None => Take(false, 0) case Some(v) => Take(handler(v), encode(v));
      if FateNow(queue[0], handler, encode) == EncodeError then [step]
      else [step] + DrainSteps(queue[1..], handler, encode)
  }

  lemma {:induction false} DrainIsRun<M(!new)>(c: Setup, s: State<M>, handler: M -> bool, encode: M -> int)
    requires s.draining
    ensures var d := Drain(s.queue, handler, encode);
      var steps := DrainSteps(s.queue, handler, encode);
      && Runs(c, s, steps)
      && After(c, s, steps) == s.(queue := d.left, taken := s.taken + d.log, draining := false)
    decreases |s.queue|
  {
    hide Drain;
    DrainOne(s.queue, handler, encode);
    var steps := DrainSteps(s.queue, handler, encode);
    var d := Drain(s.queue, handler, encode);
    var s' := Next(c, s, steps[0]);
    if s.queue == [] {
      assert s.taken + [] == s.taken;
      OneRun(c, s, steps[0], []);
      assert [steps[0]] + [] == steps;
    } else if FateNow(s.queue[0], handler, encode) == EncodeError {
      OneRun(c, s, steps[0], []);
      assert [steps[0]] + [] == steps;
    } else {
      var rest := s.queue[1..];
      DrainIsRun(c, s', handler, encode);
      OneRun(c, s, steps[0], DrainSteps(rest, handler, encode));
      var e := Drain(rest, handler, encode);
      assert s.taken + d.log == s'.taken + e.log;
    }
  }

  // The steps that make up one put with its notification, and one event on the pipe.
  function PutSteps<M(!new)>(c: Setup, size: nat, m: Option<M>, limit: bool): seq<Step<M>> {
    if Refuses(size, c.max, limit) then [Put(m, limit)] else [Put(m, limit), Notify]
  }

  function EventSteps<M(!new)>(queue: seq<Option<M>>, ret: int, interrupted: bool, handler: M -> bool,
                               encode: M -> int): seq<Step<M>> {
    if interrupted then [Interrupted]
    else if ret <= 0 then [ReceiveFails]
    else [Receive(ret)] + DrainSteps(queue, handler, encode)
  }

  lemma {:induction false} PutIsRun<M(!new)>(c: Setup, s: State<M>, m: Option<M>, limit: bool)
    ensures var steps := PutSteps(c, |s.queue|, m, limit);
      && Runs(c, s, steps)
      && After(c, s, steps) ==
         if Refuses(|s.queue|, c.max, limit) then s
         else s.(queue := Pushed(c.kind, s.queue, m), accepted := s.accepted + [m],
                 pipe := if s.registered && s.pipe < c.room then s.pipe + 1 else s.pipe)
  {
    var t := Next(c, s, Step.Put(m, limit));
    if Refuses(|s.queue|, c.max, limit) {
      OneRun(c, s, Step.Put(m, limit), []);
      assert [Step.Put(m, limit)] + [] == [Step.Put(m, limit)];
    } else {
      OneRun(c, t, Step<M>.Notify, []);
      assert [Step<M>.Notify] + [] == [Step<M>.Notify];
      OneRun(c, s, Step.Put(m, limit), [Step.Notify]);
      assert [Step.Put(m, limit)] + [Step.Notify] == [Step.Put(m, limit), Step.Notify];
    }
  }

  lemma {:induction false} EventIsRun<M(!new)>(c: Setup, s: State<M>, ret: int, interrupted: bool,
                                               handler: M -> bool, encode: M -> int)
    requires s.registered && !s.draining && ret <= s.pipe && ret <= CHUNK
    ensures var steps := EventSteps(s.queue, ret, interrupted, handler, encode);
      var d := Drain(s.queue, handler, encode);
      && Runs(c, s, steps)
      && After(c, s, steps) ==
         if interrupted then s
         else if ret <= 0 then s.(registered := false, pipe := 0)
         else s.(pipe := s.pipe - ret, queue := d.left, taken := s.taken + d.log)
  {
    var steps := EventSteps(s.queue, ret, interrupted, handler, encode);
    if interrupted || ret <= 0 {
      OneRun(c, s, steps[0], []);
      assert [steps[0]] + [] == steps;
    } else {
      var t := Next(c, s, Receive(ret));
      DrainIsRun(c, t, handler, encode);
      OneRun(c, s, Receive(ret), DrainSteps(s.queue, handler, encode));
    }
  }

  // The result queue with its socket pair, between calls: each call is a run of the protocol.
  class Pipe<M(!new)> {
    const queue: SyncObjectQueue<Option<M>>
    var bytes: nat
    const room: nat
    var registered: bool

    ghost var state: State<M>

    ghost function TheSetup(): Setup
      reads queue
    {
      Setup(queue.kind, queue.max, room)
    }

    ghost predicate Valid()
      reads this, queue
    {
      && queue.Valid()
      && state.queue == queue.data && state.pipe == bytes && state.registered == registered
      && state.notifying == 0 && !state.draining
    }

    constructor (queue: SyncObjectQueue<Option<M>>, room: nat)
      requires queue.Valid() && queue.data == []
      ensures this.queue == queue && this.room == room && Valid() && state == Start()
    {
      this.queue, this.room, bytes, registered := queue, room, 0, true;
      state := Start();
    }

    // QueuePushMsgCallBack::Call: one byte, without blocking.
    method Notify() returns (ret: int)
      modifies this`bytes
      ensures bytes == (if registered && old(bytes) < room then old(bytes) + 1 else old(bytes))
      ensures ret == if registered && old(bytes) < room then 1 else -1
    {
      if !registered || bytes >= room { return -1; }
      bytes := bytes + 1;
      return 1;
    }

    // ObjectQueue::Put with that callback.
    method Put(m: Option<M>, limit: bool) returns (ret: int)
      requires Valid()
      modifies queue, this`bytes, this`state
      ensures Valid() && queue.max == old(queue.max)
      ensures ret == if Refuses(old(|queue.data|), old(queue.max), limit) then -1 else 0
      ensures var steps := PutSteps(TheSetup(), old(|queue.data|), m, limit);
        Runs(TheSetup(), old(state), steps) && state == After(TheSetup(), old(state), steps)
      ensures ret == 0 ==> queue.data == Pushed(queue.kind, old(queue.data), m)
      ensures ret == 0 ==> bytes == (if registered && old(bytes) < room then old(bytes) + 1 else old(bytes))
      ensures ret != 0 ==> queue.data == old(queue.data) && bytes == old(bytes)
    {
      ghost var c := TheSetup();
      PutIsRun(c, state, m, limit);
      state := After(c, state, PutSteps(c, |queue.data|, m, limit));
      ret := queue.PutImplement(m, limit);
      if ret == 0 {
        var sent := Notify();
      }
    }

    // PushMsgCallBack::Call
    method Call(handler: M -> bool, encode: M -> int) returns (ret: int, log: seq<(Option<M>, Fate)>)
      requires queue.Valid()
      modifies queue
      ensures queue.Valid() && queue.max == old(queue.max)
      ensures Drained(log, queue.data, ret) == Drain(old(queue.data), handler, encode)
    {
      hide Drain;
      hide FateNow;
      log := [];
      ghost var all := queue.data;
      assert Drain(all, handler, encode).log == log + Drain(all, handler, encode).log;
      while true
        invariant queue.Valid() && queue.max == old(queue.max)
        invariant var d := Drain(queue.data, handler, encode); Drain(all, handler, encode) == d.(log := log + d.log)
        decreases |queue.data|
      {
        ghost var before := queue.data;
        DrainOne(before, handler, encode);
        var got, m := queue.Get();
        if got != 0 {
          assert log + [] == log;
          return 0, log;
        }
        var fate := FateNow(m[0], handler, encode);
        ghost var d := Drain(queue.data, handler, encode);
        assert log + ([(m[0], fate)] + d.log) == (log + [(m[0], fate)]) + d.log;
        log := log + [(m[0], fate)];
        if fate == EncodeError { return -1, log; }
      }
    }

    // PipeEventHandler::HandleInput: recv returned ret, interrupted or not.
    method HandleInput(ret: int, interrupted: bool, handler: M -> bool, encode: M -> int)
      returns (log: seq<(Option<M>, Fate)>)
      requires Valid() && registered && ret <= bytes && ret <= CHUNK && (interrupted ==> ret == -1)
      modifies this`bytes, this`registered, this`state, queue
      ensures Valid() && queue.max == old(queue.max)
      ensures var steps := EventSteps(old(queue.data), ret, interrupted, handler, encode);
        Runs(TheSetup(), old(state), steps) && state == After(TheSetup(), old(state), steps)
      ensures state.taken == old(state.taken) + log
      ensures ret > 0 ==> bytes == old(bytes) - ret && registered
      ensures ret > 0 ==> var d := Drain(old(queue.data), handler, encode); log == d.log && queue.data == d.left
      ensures ret <= 0 ==> log == [] && queue.data == old(queue.data) && registered == interrupted
    {
      ghost var c := TheSetup();
      EventIsRun(c, state, ret, interrupted, handler, encode);
      state := After(c, state, EventSteps(queue.data, ret, interrupted, handler, encode));
      log := [];
      assert old(state.taken) + log == old(state.taken);
      if interrupted { return; }
      if ret <= 0 {
        registered, bytes := false, 0;
        return;
      }
      bytes := bytes - ret;
      var r;
      r, log := Call(handler, encode);
    }
  }
}
