/** How results go from the worker threads to the event thread. */
module Wakeup {
  import opened Wrappers
  import opened ObjectQueue

  // A worker puts a message into the result queue and then sends one byte through a socket pair;
  // the event thread, woken by the byte, drains the queue. Worker and event thread steps interleave
  // in any order.

  // What became of a message taken from the queue.
  datatype Fate = Skipped | NoHandler | Sent | Closed | EncodeError

  // PushMsgCallBack::Call for one message; len is what its encoder returned.
  function FateOf<M(!new)>(m: Option<M>, handler: bool, len: int): Fate {
    if m.None? then Skipped
    else if !handler then NoHandler
    else if len < 0 then EncodeError
    else if len > 0 then Sent
    else Closed
  }

  // The queue's bound, its kind, and how many bytes the socket pair holds.
  datatype Setup = Setup(kind: Kind, max: nat, room: nat)

  datatype State<M> = State(
    queue: seq<Option<M>>,
    pipe: nat,              // bytes sent and not yet received
    notifying: nat,         // workers between a successful put and their send
    draining: bool,         // the event thread is in the drain loop
    registered: bool,       // the event thread still listens to the pipe
    accepted: seq<Option<M>>,
    taken: seq<(Option<M>, Fate)>)

  function Start<M(!new)>(): State<M> {
    State([], 0, 0, false, true, [], [])
  }

  datatype Step<M> =
    | Put(m: Option<M>, limit: bool)
    | Notify
    | Interrupted
    | ReceiveFails          // an error or end of file: the handler is removed
    | Receive(n: nat)
    | Take(handler: bool, len: int)

  const CHUNK: nat := 64

  predicate Enabled<M(!new)>(c: Setup, s: State<M>, step: Step<M>) {
    match step
    case Put(_, _) => true
    case Notify => s.notifying > 0
    case Interrupted => !s.draining && s.registered
    case ReceiveFails => !s.draining && s.registered
    case Receive(n) => !s.draining && s.registered && 0 < n <= s.pipe && n <= CHUNK
    case Take(_, _) => s.draining
  }

  function Next<M(!new)>(c: Setup, s: State<M>, step: Step<M>): State<M>
    requires Enabled(c, s, step)
  {
    match step
    case Put(m, limit) =>
      if Refuses(|s.queue|, c.max, limit) then s
      else s.(queue := Pushed(c.kind, s.queue, m), notifying := s.notifying + 1, accepted := s.accepted + [m])
    case Notify =>
      // a send that would block, or whose socket is closed, fails, and its failure is ignored
      s.(notifying := s.notifying - 1, pipe := if s.registered && s.pipe < c.room then s.pipe + 1 else s.pipe)
    case Interrupted => s
    case ReceiveFails => s.(registered := false, pipe := 0) // both sockets are closed
    case Receive(n) => s.(pipe := s.pipe - n, draining := true)
    case Take(handler, len) =>
      if s.queue == [] then s.(draining := false)
      else
        var fate := FateOf(s.queue[0], handler, len);
        s.(queue := s.queue[1..], taken := s.taken + [(s.queue[0], fate)], draining := fate != EncodeError)
  }

  // ---------- no lost wake-up ----------

  // Messages wait and nothing is on its way to fetch them.
  predicate Stalled<M(!new)>(s: State<M>) {
    s.queue != [] && !s.draining && (!s.registered || (s.pipe == 0 && s.notifying == 0))
  }

  // A step that gives up on a message while others wait behind it and no byte is on its way.
  predicate GivesUp<M(!new)>(s: State<M>, step: Step<M>) {
    && step.Take? && |s.queue| > 1 && s.pipe == 0 && s.notifying == 0
    && FateOf(s.queue[0], step.handler, step.len) == EncodeError
  }

  // A step that stops listening while messages wait.
  predicate StopsListening<M(!new)>(s: State<M>, step: Step<M>) {
    step.ReceiveFails? && s.queue != []
  }

  // A message that is accepted when nobody listens and none waits yet.
  predicate Unheard<M(!new)>(c: Setup, s: State<M>, step: Step<M>) {
    step.Put? && !s.registered && s.queue == [] && !Refuses(0, c.max, step.limit)
  }

  // The three ways to a lost wake-up.
  lemma {:induction false} StallsExactly<M(!new)>(c: Setup, s: State<M>, step: Step<M>)
    requires c.room > 0 && Enabled(c, s, step) && (s.draining ==> s.registered) && !Stalled(s)
    ensures Stalled(Next(c, s, step)) <==> GivesUp(s, step) || StopsListening(s, step) || Unheard(c, s, step)
  {
  }

  // Out of it leads only another message, and only if the event thread listens.
  lemma {:induction false} StallEnds<M(!new)>(c: Setup, s: State<M>, step: Step<M>)
    requires Enabled(c, s, step) && Stalled(s)
    ensures !Stalled(Next(c, s, step)) <==> s.registered && step.Put? && !Refuses(|s.queue|, c.max, step.limit)
  {
  }

  // Nobody listens and nobody drains.
  predicate Deaf<M(!new)>(s: State<M>) {
    !s.registered && !s.draining
  }

  // That stays so, and nothing is ever taken from the queue any more.
  lemma {:induction false} DeafStays<M(!new)>(c: Setup, s: State<M>, steps: seq<Step<M>>)
    requires Runs(c, s, steps) && Deaf(s)
    ensures Deaf(After(c, s, steps)) && After(c, s, steps).taken == s.taken
    decreases |steps|
  {
    if steps != [] { DeafStays(c, Next(c, s, steps[0]), steps[1..]); }
  }

  // ---------- runs ----------

  predicate Runs<M(!new)>(c: Setup, s: State<M>, steps: seq<Step<M>>)
    decreases |steps|
  {
    steps == [] || (Enabled(c, s, steps[0]) && Runs(c, Next(c, s, steps[0]), steps[1..]))
  }

  function After<M(!new)>(c: Setup, s: State<M>, steps: seq<Step<M>>): State<M>
    requires Runs(c, s, steps)
    decreases |steps|
  {
    if steps == [] then s else After(c, Next(c, s, steps[0]), steps[1..])
  }

  predicate Fails<M(!new)>(s: State<M>) {
    exists i :: 0 <= i < |s.taken| && s.taken[i].1 == EncodeError
  }

  // What was put in, against what was taken out and still waits.
  ghost predicate Conserved<M(!new)>(c: Setup, s: State<M>) {
    && (c.kind == Queue ==> s.accepted == Messages(s.taken) + s.queue)
    && (forall m :: Times(s.accepted, m) == Times(Messages(s.taken), m) + Times(s.queue, m))
  }

  function Messages<M(!new)>(taken: seq<(Option<M>, Fate)>): seq<Option<M>> {
    seq(|taken|, i requires 0 <= i < |taken| => taken[i].0)
  }

  ghost predicate Inv<M(!new)>(c: Setup, s: State<M>) {
    Conserved(c, s) && s.pipe <= c.room && (Stalled(s) ==> Fails(s) || Deaf(s)) && (s.draining ==> s.registered)
  }

  lemma {:induction false} PutConserves<M(!new)>(c: Setup, s: State<M>, m: Option<M>)
    requires Conserved(c, s)
    ensures Conserved(c, s.(queue := Pushed(c.kind, s.queue, m), accepted := s.accepted + [m]))
  {
    var s' := s.(queue := Pushed(c.kind, s.queue, m), accepted := s.accepted + [m]);
    forall x
      ensures Times(s'.accepted, x) == Times(Messages(s'.taken), x) + Times(s'.queue, x)
    {
      TimesJoined(s.accepted, [m], x);
      TimesJoined(s.queue, [m], x);
      TimesJoined([m], s.queue, x);
    }
    Regroup(Messages(s.taken), s.queue, [m]);
  }

  lemma {:induction false} TakeConserves<M(!new)>(c: Setup, s: State<M>, fate: Fate)
    requires Conserved(c, s) && s.queue != []
    ensures Conserved(c, s.(queue := s.queue[1..], taken := s.taken + [(s.queue[0], fate)]))
  {
    var s' := s.(queue := s.queue[1..], taken := s.taken + [(s.queue[0], fate)]);
    assert Messages(s'.taken) == Messages(s.taken) + [s.queue[0]];
    assert s.queue == [s.queue[0]] + s.queue[1..];
    forall x
      ensures Times(s'.accepted, x) == Times(Messages(s'.taken), x) + Times(s'.queue, x)
    {
      TimesJoined(Messages(s.taken), [s.queue[0]], x);
      TimesJoined([s.queue[0]], s.queue[1..], x);
    }
    Regroup(Messages(s.taken), [s.queue[0]], s.queue[1..]);
  }

  lemma {:induction false} StepConserves<M(!new)>(c: Setup, s: State<M>, step: Step<M>)
    requires Enabled(c, s, step) && Conserved(c, s)
    ensures Conserved(c, Next(c, s, step))
  {
    hide Times;
    match step
    case Put(m, limit) => PutConserves(c, s, m);
    case Take(handler, len) => if s.queue != [] { TakeConserves(c, s, FateOf(s.queue[0], handler, len)); }
    case _ =>
  }

  lemma {:induction false} StepKeepsFailures<M(!new)>(c: Setup, s: State<M>, step: Step<M>)
    requires Enabled(c, s, step)
    ensures Fails(Next(c, s, step)) <==>
      Fails(s) || (step.Take? && s.queue != [] && FateOf(s.queue[0], step.handler, step.len) == EncodeError)
  {
    var s' := Next(c, s, step);
    if step.Take? && s.queue != [] {
      assert s'.taken[|s.taken|].1 == FateOf(s.queue[0], step.handler, step.len);
      if Fails(s) {
        var i :| 0 <= i < |s.taken| && s.taken[i].1 == EncodeError;
        assert s'.taken[i].1 == EncodeError;
      }
    }
  }

  lemma {:induction false} StepInv<M(!new)>(c: Setup, s: State<M>, step: Step<M>)
    requires c.room > 0 && Enabled(c, s, step) && Inv(c, s)
    ensures Inv(c, Next(c, s, step))
  {
    hide Conserved;
    hide Fails;
    StepConserves(c, s, step);
    StepKeepsFailures(c, s, step);
    if !Stalled(s) { StallsExactly(c, s, step); }
  }

  // In every run: no message is lost or handed out twice, and as long as no message failed to
  // encode and no receive failed, a waiting message has a byte in the pipe, a worker about to send
  // one, or the drain loop running.
  lemma {:induction false} RunInv<M(!new)>(c: Setup, s: State<M>, steps: seq<Step<M>>)
    requires c.room > 0 && Inv(c, s) && Runs(c, s, steps)
    ensures Inv(c, After(c, s, steps))
    decreases |steps|
  {
    hide Inv;
    hide Next;
    if steps != [] {
      StepInv(c, s, steps[0]);
      RunInv(c, Next(c, s, steps[0]), steps[1..]);
    }
  }

  lemma {:induction false} NoLostWakeup<M(!new)>(c: Setup, steps: seq<Step<M>>)
    requires c.room > 0 && Runs(c, Start<M>(), steps)
    ensures var s := After(c, Start(), steps);
      && Conserved(c, s) && s.pipe <= c.room
      && (s.queue != [] && !Fails(s) && s.registered ==> s.pipe > 0 || s.notifying > 0 || s.draining)
  {
    assert Inv(c, Start<M>());
    RunInv(c, Start(), steps);
  }

  // ---------- everything is delivered ----------

  // What is left to do if no more messages come.
  function Work<M(!new)>(s: State<M>): nat {
    3 * s.notifying + 2 * s.pipe + |s.queue| + (if s.draining then 1 else 0) + (if s.registered then 1 else 0)
  }

  // Without new messages and interruptions every step brings the end nearer.
  lemma {:induction false} WorkShrinks<M(!new)>(c: Setup, s: State<M>, step: Step<M>)
    requires Enabled(c, s, step) && !step.Put? && !step.Interrupted?
    ensures Work(Next(c, s, step)) < Work(s)
  {
  }

  predicate Quiet<M(!new)>(steps: seq<Step<M>>) {
    forall i :: 0 <= i < |steps| ==> !steps[i].Put? && !steps[i].Interrupted?
  }

  lemma {:induction false} QuietEnds<M(!new)>(c: Setup, s: State<M>, steps: seq<Step<M>>)
    requires Runs(c, s, steps) && Quiet(steps)
    ensures |steps| <= Work(s)
    decreases |steps|
  {
    if steps != [] {
      WorkShrinks(c, s, steps[0]);
      forall i | 0 <= i < |steps[1..]|
        ensures !steps[1..][i].Put? && !steps[1..][i].Interrupted?
      {
        assert steps[1..][i] == steps[i + 1];
      }
      QuietEnds(c, Next(c, s, steps[0]), steps[1..]);
    }
  }

  // Nothing can happen unless another message comes, or the event thread's receive fails.
  ghost predicate AtRest<M(!new)>(c: Setup, s: State<M>) {
    forall step :: Enabled(c, s, step) ==> step.Put? || step.Interrupted? || step.ReceiveFails?
  }

  lemma {:induction false} RestIs<M(!new)>(c: Setup, s: State<M>)
    ensures AtRest(c, s) <==> s.notifying == 0 && !s.draining && (s.registered ==> s.pipe == 0)
  {
    if AtRest(c, s) {
      assert !Enabled(c, s, Step<M>.Notify) && !Enabled(c, s, Step<M>.Receive(1));
      assert !Enabled(c, s, Step<M>.Take(true, 0));
    }
  }

  // When everything has come to rest, every message that was put in has been dealt with, in the
  // order of arrival by a queue, unless one failed to encode or the event thread stopped listening.
  lemma {:induction false} AllDelivered<M(!new)>(c: Setup, steps: seq<Step<M>>)
    requires c.room > 0 && Runs(c, Start<M>(), steps)
    requires var s := After(c, Start<M>(), steps); AtRest(c, s) && !Fails(s) && s.registered
    ensures var s := After(c, Start(), steps);
      && s.queue == []
      && (c.kind == Queue ==> s.accepted == Messages(s.taken))
      && (forall m :: Times(s.accepted, m) == Times(Messages(s.taken), m))
  {
    var s := After(c, Start<M>(), steps);
    NoLostWakeup(c, steps);
    RestIs(c, s);
    assert Messages(s.taken) + [] == Messages(s.taken);
  }

  // ---------- the bound ----------

  // The next message is refused exactly if the limit applies to it and is reached, and otherwise
  // waits, behind the others in a queue and in front of them on a stack.
  lemma {:induction false} PutMeans<M(!new)>(c: Setup, s: State<M>, m: Option<M>, limit: bool)
    ensures var s' := Next(c, s, Put(m, limit));
      if limit && |s.queue| >= c.max then s' == s
      else
        && s'.queue == (if c.kind == Queue then s.queue + [m] else [m] + s.queue)
        && s'.accepted == s.accepted + [m] && s'.notifying == s.notifying + 1
  {
  }

  // As long as the limit applies to every message, no more than that many wait.
  lemma {:induction false} QueueBounded<M(!new)>(c: Setup, s: State<M>, steps: seq<Step<M>>)
    requires Runs(c, s, steps) && |s.queue| <= c.max
    requires forall i :: 0 <= i < |steps| && steps[i].Put? ==> steps[i].limit
    ensures |After(c, s, steps).queue| <= c.max
    decreases |steps|
  {
    if steps != [] {
      forall i | 0 <= i < |steps[1..]| && steps[1..][i].Put?
        ensures steps[1..][i].limit
      {
        assert steps[1..][i] == steps[i + 1];
      }
      QueueBounded(c, Next(c, s, steps[0]), steps[1..]);
    }
  }

  // ---------- what becomes of a message ----------

  // A reply is sent exactly if its client's handler is there and the coder yields bytes; a reply of
  // no bytes closes the connection, and a negative length gives the message up.
  predicate FateMeans<M(!new)>(m: Option<M>, fate: Fate, handler: M -> bool, encode: M -> int) {
    && (fate == Sent <==> m.Some? && handler(m.value) && encode(m.value) > 0)
    && (fate == Closed <==> m.Some? && handler(m.value) && encode(m.value) == 0)
    && (fate == EncodeError <==> m.Some? && handler(m.value) && encode(m.value) < 0)
    && (fate == NoHandler <==> m.Some? && !handler(m.value))
    && (fate == Skipped <==> m.None?)
  }

  // The same at a single step, whose handler and length may be others than at the next.
  lemma {:induction false} TakeMeans<M(!new)>(c: Setup, s: State<M>, step: Step<M>)
    requires Enabled(c, s, step) && step.Take? && s.queue != []
    ensures var s' := Next(c, s, step);
      && |s'.taken| == |s.taken| + 1 && s'.taken[..|s.taken|] == s.taken
      && s'.taken[|s.taken|].0 == s.queue[0] && s'.queue == s.queue[1..]
      && FateMeans(s.queue[0], s'.taken[|s.taken|].1, _ => step.handler, _ => step.len)
      && (s'.draining <==> !(s.queue[0].Some? && step.handler && step.len < 0))
  {
  }

  // A run in which every message taken finds the handler and the coder that these say.
  predicate Follows<M(!new)>(c: Setup, s: State<M>, steps: seq<Step<M>>, handler: M -> bool, encode: M -> int)
    requires Runs(c, s, steps)
    decreases |steps|
  {
    steps == [] ||
    (&& (steps[0].Take? && s.queue != [] && s.queue[0].Some? ==>
          steps[0].handler == handler(s.queue[0].value) && steps[0].len == encode(s.queue[0].value))
     && Follows(c, Next(c, s, steps[0]), steps[1..], handler, encode))
  }

  lemma {:induction false} FateOfStep<M(!new)>(c: Setup, s: State<M>, step: Step<M>, handler: M -> bool, encode: M -> int)
    requires Enabled(c, s, step) && step.Take? && s.queue != []
    requires s.queue[0].Some? ==> step.handler == handler(s.queue[0].value) && step.len == encode(s.queue[0].value)
    ensures var s' := Next(c, s, step);
      && |s'.taken| == |s.taken| + 1 && s'.taken[..|s.taken|] == s.taken
      && FateMeans(s'.taken[|s.taken|].0, s'.taken[|s.taken|].1, handler, encode)
  {
  }

  predicate AllMean<M(!new)>(taken: seq<(Option<M>, Fate)>, handler: M -> bool, encode: M -> int) {
    forall i :: 0 <= i < |taken| ==> FateMeans(taken[i].0, taken[i].1, handler, encode)
  }

  lemma {:induction false} FatesMean<M(!new)>(c: Setup, s: State<M>, steps: seq<Step<M>>, handler: M -> bool, encode: M -> int)
    requires Runs(c, s, steps) && Follows(c, s, steps, handler, encode) && AllMean(s.taken, handler, encode)
    ensures AllMean(After(c, s, steps).taken, handler, encode)
    decreases |steps|
  {
    hide FateMeans;
    if steps != [] {
      var s' := Next(c, s, steps[0]);
      if steps[0].Take? && s.queue != [] { FateOfStep(c, s, steps[0], handler, encode); }
      forall i | 0 <= i < |s'.taken|
        ensures FateMeans(s'.taken[i].0, s'.taken[i].1, handler, encode)
      {
        if i < |s.taken| { assert s'.taken[i] == s.taken[i]; }
      }
      FatesMean(c, s', steps[1..], handler, encode);
    }
  }

  // If every message can be encoded, then when everything has come to rest, and the event thread
  // listens, each accepted message has been taken as often as it was put in, and each time the
  // reply was sent exactly if it had a handler and some length.
  lemma {:induction false} AllSent<M(!new)>(c: Setup, steps: seq<Step<M>>, handler: M -> bool, encode: M -> int)
    requires c.room > 0 && Runs(c, Start<M>(), steps) && Follows(c, Start(), steps, handler, encode)
    requires var s := After(c, Start<M>(), steps); AtRest(c, s) && s.registered
    requires forall v :: Some(v) in After(c, Start<M>(), steps).accepted && handler(v) ==> encode(v) >= 0
    ensures var s := After(c, Start(), steps);
      && s.queue == []
      && (c.kind == Queue ==> s.accepted == Messages(s.taken))
      && (forall m :: Times(s.accepted, m) == Times(Messages(s.taken), m))
      && AllMean(s.taken, handler, encode)
  {
    hide FateMeans;
    var s := After(c, Start<M>(), steps);
    FatesMean(c, Start<M>(), steps, handler, encode);
    NoLostWakeup(c, steps);
    forall i | 0 <= i < |s.taken|
      ensures s.taken[i].1 != EncodeError
    {
      assert Messages(s.taken)[i] == s.taken[i].0;
      TakenWasAccepted(s.accepted, Messages(s.taken), s.queue, s.taken[i].0);
      NoFailure(s.taken[i].0, s.taken[i].1, handler, encode);
    }
    AllDelivered(c, steps);
  }

  lemma {:induction false} TakenWasAccepted<M(!new)>(accepted: seq<Option<M>>, taken: seq<Option<M>>,
                                                     queue: seq<Option<M>>, m: Option<M>)
    requires Times(accepted, m) == Times(taken, m) + Times(queue, m) && m in taken
    ensures m in accepted
  {
    assert m in multiset(taken);
    assert m in multiset(accepted);
  }

  lemma {:induction false} NoFailure<M(!new)>(m: Option<M>, fate: Fate, handler: M -> bool, encode: M -> int)
    requires FateMeans(m, fate, handler, encode) && (m.Some? && handler(m.value) ==> encode(m.value) >= 0)
    ensures fate != EncodeError
  {
  }

  // ---------- a failed encoding does lose the wake-up ----------

  lemma {:induction false} FailureStalls<M(!new)>(a: M, b: M)
    ensures var c := Setup(Queue, 1000, 1);
      var steps := [Put(Some(a), true), Put(Some(b), true), Notify, Notify, Receive(1), Take(true, -1)];
      Runs(c, Start(), steps) && Stalled(After(c, Start(), steps)) && After(c, Start(), steps).queue == [Some(b)]
  {
    var c := Setup(Queue, 1000, 1);
    var s1 := Next(c, Start<M>(), Put(Some(a), true));
    var s2 := Next(c, s1, Put(Some(b), true));
    var s3 := Next(c, s2, Notify);
    var s4 := Next(c, s3, Notify);
    var s5 := Next(c, s4, Receive(1));
    var s6 := Next(c, s5, Take(true, -1));
    OneRun(c, s5, Take(true, -1), []);
    OneRun(c, s4, Receive(1), [Take(true, -1)]);
    OneRun(c, s3, Notify, [Receive(1), Take(true, -1)]);
    OneRun(c, s2, Notify, [Notify, Receive(1), Take(true, -1)]);
    OneRun(c, s1, Put(Some(b), true), [Notify, Notify, Receive(1), Take(true, -1)]);
    OneRun(c, Start<M>(), Put(Some(a), true), [Put(Some(b), true), Notify, Notify, Receive(1), Take(true, -1)]);
  }

  // So does a failed receive, without any message that failed to encode.
  lemma {:induction false} LostListenerStalls<M(!new)>(a: M)
    ensures var c := Setup(Queue, 1000, 1);
      var steps := [Put(Some(a), true), Notify, ReceiveFails];
      && Runs(c, Start(), steps) && Stalled(After(c, Start(), steps))
      && !Fails(After(c, Start(), steps)) && After(c, Start(), steps).queue == [Some(a)]
  {
    var c := Setup(Queue, 1000, 1);
    var s1 := Next(c, Start<M>(), Put(Some(a), true));
    var s2 := Next(c, s1, Notify);
    OneRun(c, s2, ReceiveFails, []);
    OneRun(c, s1, Notify, [ReceiveFails]);
    OneRun(c, Start<M>(), Put(Some(a), true), [Notify, ReceiveFails]);
  }

  lemma {:induction false} OneRun<M(!new)>(c: Setup, s: State<M>, step: Step<M>, rest: seq<Step<M>>)
    requires Enabled(c, s, step) && Runs(c, Next(c, s, step), rest)
    ensures Runs(c, s, [step] + rest) && After(c, s, [step] + rest) == After(c, Next(c, s, step), rest)
  {
    assert ([step] + rest)[1..] == rest;
  }
}
