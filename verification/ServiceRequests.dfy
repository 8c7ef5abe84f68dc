/** How the service coder tells replies apart. */
module ServiceRequests {
  // Every decoded request gets a number of its own, under which its service, key and serial number
  // are kept until the reply is encoded.

  datatype Info = Info(service: string, key: string, serialNo: int)

  const INT_MAX: int := 0x7FFF_FFFF
  const INT_MIN: int := -0x8000_0000

  // The counter is a 32-bit int; one above the largest it is taken to wrap around.
  function Successor(counter: int): int {
    if counter == INT_MAX then INT_MIN else counter + 1
  }

  // What becomes of a message that is encoded: it is wrapped in a service message, encoded as it
  // is, with the number it carries, or not at all.
  datatype Reply = Wrapped(info: Info) | Direct(serialNo: int) | Failed

  predicate Plain(info: Info) {
    info.service == "" && info.key == ""
  }

  // inner: whether the inner coder can encode the message.
  function ReplyTo(pending: map<int, Info>, id: int, inner: bool): Reply {
    if id !in pending || Plain(pending[id]) then Direct(id)
    else if !inner then Failed
    else Wrapped(pending[id])
  }

  // ---------- runs ----------

  datatype Step =
    | Decode(info: Info)             // a message that could be decoded
    | Encode(id: int, inner: bool)

  datatype State = State(
    counter: int,
    pending: map<int, Info>,
    issued: map<int, Info>,          // every number given out, and for what
    replies: seq<(int, Reply)>)

  function Start(counter: int): State {
    State(counter, map[], map[], [])
  }

  function Next(s: State, step: Step): State {
    match step
    case Decode(info) =>
      var id := Successor(s.counter);
      if id in s.pending then s.(counter := id)
      else s.(counter := id, pending := s.pending[id := info], issued := s.issued[id := info])
    case Encode(id, inner) =>
      s.(pending := s.pending - {id}, replies := s.replies + [(id, ReplyTo(s.pending, id, inner))])
  }

  function After(s: State, steps: seq<Step>): State
    decreases |steps|
  {
    if steps == [] then s else After(Next(s, steps[0]), steps[1..])
  }

  function Decodes(steps: seq<Step>): nat
    decreases |steps|
  {
    if steps == [] then 0 else (if steps[0].Decode? then 1 else 0) + Decodes(steps[1..])
  }

  // The number i was answered in reply k.
  predicate Answered(s: State, id: int, k: int) {
    0 <= k < |s.replies| && s.replies[k].0 == id && !s.replies[k].1.Direct?
  }

  // What holds until the counter comes round.
  ghost predicate Inv(first: int, s: State) {
    && first <= s.counter <= INT_MAX
    && (forall id :: id in s.issued <==> first < id <= s.counter)
    && (forall id :: id in s.pending ==> id in s.issued && s.pending[id] == s.issued[id])
    && (forall k :: 0 <= k < |s.replies| && !s.replies[k].1.Direct? ==>
          var id := s.replies[k].0;
          id in s.issued && id !in s.pending && !Plain(s.issued[id])
          && (s.replies[k].1.Wrapped? ==> s.replies[k].1.info == s.issued[id]))
    && (forall j, k :: 0 <= j < k < |s.replies| && !s.replies[j].1.Direct? && !s.replies[k].1.Direct? ==>
          s.replies[j].0 != s.replies[k].0)
    // a number that is no longer pending has been asked for
    && (forall id :: id in s.issued && id !in s.pending && !Plain(s.issued[id]) ==>
          exists k :: Answered(s, id, k))
  }

  lemma {:induction false} DecodeInv(first: int, s: State, info: Info)
    requires Inv(first, s) && s.counter < INT_MAX
    ensures Inv(first, Next(s, Decode(info)))
    ensures s.counter + 1 !in s.issued && Next(s, Decode(info)).issued == s.issued[s.counter + 1 := info]
  {
    var t := Next(s, Decode(info));
    forall id | id in t.issued && id !in t.pending && !Plain(t.issued[id])
      ensures exists k :: Answered(t, id, k)
    {
      var k :| Answered(s, id, k);
      assert Answered(t, id, k);
    }
  }

  lemma {:induction false} EncodeInv(first: int, s: State, id: int, inner: bool)
    requires Inv(first, s)
    ensures Inv(first, Next(s, Encode(id, inner)))
  {
    var t := Next(s, Encode(id, inner));
    forall i | i in t.issued && i !in t.pending && !Plain(t.issued[i])
      ensures exists k :: Answered(t, i, k)
    {
      if i == id && id in s.pending {
        assert Answered(t, i, |s.replies|);
      } else {
        var k :| Answered(s, i, k);
        assert Answered(t, i, k);
      }
    }
  }

  lemma {:induction false} RunInv(first: int, s: State, steps: seq<Step>)
    requires Inv(first, s) && s.counter + Decodes(steps) <= INT_MAX
    ensures Inv(first, After(s, steps)) && After(s, steps).counter == s.counter + Decodes(steps)
    decreases |steps|
  {
    hide Inv;
    if steps != [] {
      match steps[0] {
        case Decode(info) => DecodeInv(first, s, info); Bounds(first, s);
        case Encode(id, inner) => EncodeInv(first, s, id, inner);
      }
      RunInv(first, Next(s, steps[0]), steps[1..]);
    }
  }

  lemma {:induction false} Bounds(first: int, s: State)
    requires Inv(first, s) && s.counter < INT_MAX
    ensures s.counter + 1 !in s.pending
  {
  }

  // In every run before the counter wraps: numbers given out are distinct (one for each decode),
  // no number is answered twice, an answer is wrapped with what the decode of its number
  // recorded, and a number that asks for wrapping is pending until it is answered.
  lemma {:induction false} Correlated(first: int, steps: seq<Step>)
    requires INT_MIN <= first && first + Decodes(steps) <= INT_MAX
    ensures Inv(first, After(Start(first), steps))
    ensures |After(Start(first), steps).issued| == Decodes(steps)
  {
    assert Inv(first, Start(first));
    RunInv(first, Start(first), steps);
    IssuedCount(first, After(Start(first), steps));
  }

  lemma {:induction false} IssuedCount(first: int, s: State)
    requires Inv(first, s)
    ensures |s.issued| == s.counter - first
  {
    RangeIs(first, s.counter);
    var range := Range(first, s.counter);
    assert forall id :: id in s.issued.Keys ==> id in s.issued && id in range;
    assert forall id :: id in range ==> id in s.issued;
    assert s.issued.Keys == range;
  }

  function Range(first: int, last: int): set<int>
    decreases last - first
  {
    if last <= first then {} else Range(first, last - 1) + {last}
  }

  lemma {:induction false} RangeIs(first: int, last: int)
    requires first <= last
    ensures forall id :: id in Range(first, last) <==> first < id <= last
    ensures |Range(first, last)| == last - first
    decreases last - first
  {
    if first < last { RangeIs(first, last - 1); }
  }

  // The reply to a request is wrapped exactly if the request named a service or key, is not
  // answered yet, and the inner coder can encode it; and then for the right client.
  lemma {:induction false} WrappedExactly(first: int, s: State, id: int, inner: bool)
    requires Inv(first, s)
    ensures var r := ReplyTo(s.pending, id, inner);
      r.Wrapped? <==>
        id in s.issued && (s.issued[id].service != "" || s.issued[id].key != "") && inner && forall k :: !Answered(s, id, k)
    ensures var r := ReplyTo(s.pending, id, inner);
      r.Wrapped? ==> r.info == s.issued[id]
    ensures var r := ReplyTo(s.pending, id, inner);
      r.Failed? <==>
        id in s.issued && (s.issued[id].service != "" || s.issued[id].key != "") && !inner && forall k :: !Answered(s, id, k)
    ensures var r := ReplyTo(s.pending, id, inner);
      r.Direct? ==> r.serialNo == id
  {
  }

  // A message whose number was never given out is encoded as it is, in any run and also past the
  // wrap of the counter, and keeps its own number.
  lemma {:induction false} UnknownKeepsNumber(first: int, steps: seq<Step>, id: int, inner: bool)
    requires id !in After(Start(first), steps).issued
    ensures var s := After(Start(first), steps);
      var s' := Next(s, Encode(id, inner));
      && s'.pending == s.pending && s'.issued == s.issued && s'.counter == s.counter
      && s'.replies == s.replies + [(id, Direct(id))]
  {
    PendingIssued(Start(first), steps);
    var s := After(Start(first), steps);
    assert s.pending - {id} == s.pending;
  }

  lemma {:induction false} PendingIssued(s: State, steps: seq<Step>)
    requires forall id :: id in s.pending ==> id in s.issued
    ensures forall id :: id in After(s, steps).pending ==> id in After(s, steps).issued
    decreases |steps|
  {
    if steps != [] { PendingIssued(Next(s, steps[0]), steps[1..]); }
  }

  // ---------- once round and beyond ----------

  const TWO32: int := 0x1_0000_0000

  // The counter after n decodes.
  function Number(first: int, n: nat): int {
    INT_MIN + (first - INT_MIN + n) % TWO32
  }

  lemma {:induction false} NextNumber(first: int, n: nat)
    requires INT_MIN <= first <= INT_MAX
    ensures INT_MIN <= Number(first, n) <= INT_MAX && Successor(Number(first, n)) == Number(first, n + 1)
  {
  }

  lemma {:induction false} AfterLast(s: State, steps: seq<Step>, last: Step)
    ensures After(s, steps + [last]) == Next(After(s, steps), last)
    ensures Decodes(steps + [last]) == Decodes(steps) + (if last.Decode? then 1 else 0)
    decreases |steps|
  {
    if steps == [] {
      assert [] + [last] == [last];
    } else {
      assert (steps + [last])[1..] == steps[1..] + [last];
      AfterLast(Next(s, steps[0]), steps[1..], last);
    }
  }

  lemma {:induction false} CounterIs(first: int, steps: seq<Step>)
    requires INT_MIN <= first <= INT_MAX
    ensures After(Start(first), steps).counter == Number(first, Decodes(steps))
    decreases |steps|
  {
    if steps != [] {
      var n := |steps| - 1;
      assert steps == steps[..n] + [steps[n]];
      AfterLast(Start(first), steps[..n], steps[n]);
      CounterIs(first, steps[..n]);
      NextNumber(first, Decodes(steps[..n]));
    }
  }

  predicate Answers(step: Step, id: int) {
    step.Encode? && step.id == id
  }

  // Step i was a decode at which the number came up, and since then no message with that number
  // was encoded.
  predicate OpenSince(first: int, steps: seq<Step>, id: int, i: int) {
    && 0 <= i < |steps| && steps[i].Decode? && Number(first, Decodes(steps[..i + 1])) == id
    && forall j :: i < j < |steps| ==> !Answers(steps[j], id)
  }

  lemma {:induction false} OpenLater(first: int, steps: seq<Step>, id: int, i: int)
    requires steps != []
    ensures var n := |steps| - 1;
      OpenSince(first, steps, id, i) <==>
        (i < n && OpenSince(first, steps[..n], id, i) && !Answers(steps[n], id))
        || (i == n && steps[n].Decode? && Number(first, Decodes(steps)) == id)
  {
    var n := |steps| - 1;
    assert steps[..n + 1] == steps;
    if 0 <= i < n {
      assert steps[..n][..i + 1] == steps[..i + 1];
      assert forall j :: i < j < n ==> steps[..n][j] == steps[j];
    }
  }

  // In every run, also past the wrap: a number is pending exactly if a decode came to it and
  // no message with that number was encoded since.
  lemma {:induction false} PendingExactly(first: int, steps: seq<Step>, id: int)
    requires INT_MIN <= first <= INT_MAX
    ensures id in After(Start(first), steps).pending <==> exists i :: OpenSince(first, steps, id, i)
    decreases |steps|
  {
    if steps != [] {
      hide OpenSince;
      hide Number;
      var n := |steps| - 1;
      assert steps == steps[..n] + [steps[n]];
      AfterLast(Start(first), steps[..n], steps[n]);
      PendingExactly(first, steps[..n], id);
      CounterIs(first, steps);
      forall i
        ensures OpenSince(first, steps, id, i) <==>
          (i < n && OpenSince(first, steps[..n], id, i) && !Answers(steps[n], id))
          || (i == n && steps[n].Decode? && Number(first, Decodes(steps)) == id)
      {
        OpenLater(first, steps, id, i);
      }
      forall i | OpenSince(first, steps[..n], id, i)
        ensures i < n
      {
        OpenInside(first, steps[..n], id, i);
      }
      if id in After(Start(first), steps).pending && !(steps[n].Decode? && Number(first, Decodes(steps)) == id) {
        var i :| OpenSince(first, steps[..n], id, i);
        assert OpenSince(first, steps, id, i);
      }
      assert steps[n].Decode? && Number(first, Decodes(steps)) == id ==> OpenSince(first, steps, id, n);
    }
  }

  lemma {:induction false} OpenInside(first: int, steps: seq<Step>, id: int, i: int)
    requires OpenSince(first, steps, id, i)
    ensures 0 <= i < |steps|
  {
  }

  // The next decode is given no number.
  predicate Refuses(s: State) {
    Successor(s.counter) in s.pending
  }

  lemma {:induction false} DecodesParts(a: seq<Step>, b: seq<Step>)
    ensures Decodes(a + b) == Decodes(a) + Decodes(b)
    decreases |a|
  {
    if a == [] {
      assert a + b == b;
    } else {
      assert (a + b)[1..] == a[1..] + b;
      DecodesParts(a[1..], b);
    }
  }

  lemma {:induction false} SameNumber(first: int, m: nat, n: nat)
    requires m <= n
    ensures Number(first, m) == Number(first, n) <==> (n - m) % TWO32 == 0
  {
    var d := n - m;
    assert first - INT_MIN + n == (first - INT_MIN + m) + d;
    ModuloSame(first - INT_MIN + m, d);
  }

  lemma {:induction false} ModuloSame(a: int, d: int)
    ensures a % TWO32 == (a + d) % TWO32 <==> d % TWO32 == 0
  {
  }

  lemma {:induction false} CameUpBefore(first: int, steps: seq<Step>, i: int)
    requires INT_MIN <= first <= INT_MAX && 0 <= i < |steps| && steps[i].Decode?
    ensures Number(first, Decodes(steps[..i + 1])) == Number(first, Decodes(steps) + 1)
      <==> Decodes(steps[i..]) % TWO32 == 0
  {
    assert steps == steps[..i] + steps[i..];
    DecodesParts(steps[..i], steps[i..]);
    assert steps[..i + 1] == steps[..i] + [steps[i]];
    AfterLast(Start(first), steps[..i], steps[i]);
    SameNumber(first, Decodes(steps[..i + 1]), Decodes(steps) + 1);
  }

  // A registration fails exactly if the decode that came to its number a multiple of 2^32
  // decodes ago has not been answered.
  lemma {:induction false} RegistrationFails(first: int, steps: seq<Step>)
    requires INT_MIN <= first <= INT_MAX
    ensures Refuses(After(Start(first), steps)) <==>
      exists i :: 0 <= i < |steps| && steps[i].Decode? && Decodes(steps[i..]) % TWO32 == 0
        && forall j :: i < j < |steps| ==> !Answers(steps[j], Number(first, Decodes(steps) + 1))
  {
    hide Number;
    var id := Number(first, Decodes(steps) + 1);
    CounterIs(first, steps);
    NextNumber(first, Decodes(steps));
    PendingExactly(first, steps, id);
    forall i | 0 <= i < |steps| && steps[i].Decode?
      ensures OpenSince(first, steps, id, i) <==>
        Decodes(steps[i..]) % TWO32 == 0 && forall j :: i < j < |steps| ==> !Answers(steps[j], id)
    {
      CameUpBefore(first, steps, i);
    }
  }

  lemma {:induction false} ManyDecodes(info: Info, n: nat)
    ensures Decodes(seq(n, _ => Decode(info))) == n
  {
    if n > 0 {
      var steps: seq<Step> := seq(n, _ => Decode(info));
      assert steps[1..] == seq(n - 1, _ => Decode(info));
      ManyDecodes(info, n - 1);
    }
  }

  // 2^32 requests without a reply, and the next one is refused.
  lemma {:induction false} WrapRefuses(first: int, info: Info)
    requires INT_MIN <= first <= INT_MAX
    ensures Refuses(After(Start(first), seq(TWO32, _ => Decode(info))))
  {
    var steps: seq<Step> := seq(TWO32, _ => Decode(info));
    ManyDecodes(info, TWO32);
    RegistrationFails(first, steps);
    assert steps[0..] == steps && steps[0].Decode?;
  }

  lemma {:induction false} StaysPending(s: State, steps: seq<Step>, id: int)
    requires id in s.pending && forall j :: 0 <= j < |steps| ==> !Answers(steps[j], id)
    ensures id in After(s, steps).pending && After(s, steps).pending[id] == s.pending[id]
    decreases |steps|
  {
    if steps != [] {
      assert !Answers(steps[0], id);
      assert forall j :: 0 <= j < |steps[1..]| ==> steps[1..][j] == steps[j + 1];
      StaysPending(Next(s, steps[0]), steps[1..], id);
    }
  }

  // The client of a request finds its reply under its own serial number.
  predicate Right(reply: Reply, info: Info) {
    reply == Wrapped(info) || (Plain(info) && reply == Direct(info.serialNo))
  }

  // A request that was registered in any run, and is answered any time later, is answered rightly
  // exactly if it names a service or key and the inner coder succeeds, or it names none and its
  // serial number is the one the counter had come to.
  lemma {:induction false} AnsweredRightly(first: int, before: seq<Step>, info: Info, between: seq<Step>, inner: bool)
    requires INT_MIN <= first <= INT_MAX && !Refuses(After(Start(first), before))
    requires forall j :: 0 <= j < |between| ==> !Answers(between[j], Number(first, Decodes(before) + 1))
    ensures var id := Number(first, Decodes(before) + 1);
      var s := After(Next(After(Start(first), before), Decode(info)), between);
      Right(ReplyTo(s.pending, id, inner), info) <==>
        if info.service == "" && info.key == "" then info.serialNo == id else inner
  {
    hide Number;
    CounterIs(first, before);
    NextNumber(first, Decodes(before));
    StaysPending(Next(After(Start(first), before), Decode(info)), between, Number(first, Decodes(before) + 1));
  }

  // A first request without service and key, with serial number 7, is answered with number 1.
  lemma {:induction false} PlainMisnumbered()
    ensures var s := After(Start(0), [Decode(Info("", "", 7))]);
      ReplyTo(s.pending, 1, true) == Direct(1) && !Right(ReplyTo(s.pending, 1, true), Info("", "", 7))
  {
    var step := Decode(Info("", "", 7));
    assert [step][1..] == [];
    assert After(Start(0), [step]) == After(Next(Start(0), step), []);
  }

  // ---------- the classes ----------

  class RequestManager {
    var reqCounter: int
    var requests: map<int, Info>

    constructor (counter: int)
      ensures reqCounter == counter && requests == map[]
    {
      reqCounter, requests := counter, map[];
    }

    method RegisterRequest(info: Info) returns (id: int)
      modifies this
      ensures reqCounter == Successor(old(reqCounter))
      ensures reqCounter in old(requests) ==> id == -1 && requests == old(requests)
      ensures reqCounter !in old(requests) ==> id == reqCounter && requests == old(requests)[id := info]
    {
      reqCounter := Successor(reqCounter);
      if reqCounter in requests { return -1; }
      requests := requests[reqCounter := info];
      return reqCounter;
    }

    method UnregisterRequest(id: int)
      modifies this`requests
      ensures requests == old(requests) - {id}
    {
      requests := requests - {id};
    }

    method GetRequest(id: int) returns (ret: int, info: Info)
      ensures ret == 0 <==> id in requests
      ensures ret == 0 ==> info == requests[id]
      ensures ret != 0 ==> ret == -1
    {
      if id !in requests { return -1, Info("", "", 0); }
      return 0, requests[id];
    }
  }

  class ServiceFlagCoder {
    const manager: RequestManager
    ghost var state: State

    ghost predicate Valid()
      reads this, manager
    {
      state.counter == manager.reqCounter && state.pending == manager.requests
    }

    constructor (counter: int)
      ensures Valid() && fresh(manager) && state == Start(counter)
    {
      manager := new RequestManager(counter);
      state := Start(counter);
    }

    // The number the decoded message is given; -1 if the registration fails.
    method Decode(info: Info) returns (serialNo: int)
      requires Valid()
      modifies this`state, manager
      ensures Valid() && state == Next(old(state), Step.Decode(info))
      ensures serialNo == if state.counter in old(state).pending then -1 else state.counter
    {
      serialNo := manager.RegisterRequest(info);
      state := Next(state, Step.Decode(info));
    }

    method Encode(id: int, inner: bool) returns (reply: Reply)
      requires Valid()
      modifies this`state, manager
      ensures Valid() && state == Next(old(state), Step.Encode(id, inner))
      ensures reply == ReplyTo(old(state).pending, id, inner)
    {
      var ret, info := manager.GetRequest(id);
      ghost var before := state;
      state := Next(state, Step.Encode(id, inner));
      if ret != 0 {
        assert before.pending - {id} == before.pending;
        return Direct(id);
      }
      manager.UnregisterRequest(id);
      if info.service == "" && info.key == "" { return Direct(id); }
      if !inner { return Failed; }
      return Wrapped(info);
    }
  }
}
