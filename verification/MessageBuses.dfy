/**
 The bounded in-process bus (src/health_monitor/bus.py), as the control loop uses it:
 one drainer, no dispatch thread.

 Subscribers are arbitrary code, so what a handler does is an oracle: `Handlers` gives,
 for the n-th handler call the bus ever makes, the publishes and subscribes that call
 performs before it returns or raises. A raise is swallowed by the bus and has no effect
 of its own. The fields `offered`, `accepted` and `dispatched` are histories the source
 does not keep; `calls` records the handler invocations themselves.
 */
module MessageBuses {
  import opened HealthTypes
  import opened Topics

  /** The payload's "sequence" entry as the heartbeat handler converts it; `int(...)` may raise. */
  datatype SequenceField = Missing | Number(n: int) | NotAnInteger

  datatype Payload = HealthPayload(result: CheckResult) | Beacon(sequence: SequenceField) | OtherPayload

  datatype Message = Message(topic: string, payload: Payload, source: string, at: real)

  const MAX_QUEUE_DEPTH: nat := 4096
  const DRAIN_LIMIT: nat := 256

  /** The handler itself is identified by the subscription's position in the list. */
  datatype Subscription = Subscription(pattern: string)

  datatype Effect = Publish(message: Message) | Subscribe(subscription: Subscription)

  datatype HandlerCall = HandlerCall(subscriber: nat, message: Message)

  type Handlers = nat -> seq<Effect>

  datatype Bus = Bus(
    depth: int,
    queue: seq<Message>,
    subscriptions: seq<Subscription>,
    published: nat,
    dropped: nat,
    delivered: nat,
    offered: nat,
    accepted: seq<Message>,
    dispatched: seq<Message>,
    calls: seq<HandlerCall>)

  function NewBus(depth: int): Bus {
    Bus(depth, [], [], 0, 0, 0, 0, [], [], [])
  }

  /** A queue of depth zero or less is unbounded. */
  predicate HasRoom(b: Bus) {
    b.depth <= 0 || |b.queue| < b.depth
  }

  function DoPublish(b: Bus, m: Message): Bus {
    if !HasRoom(b) then b.(offered := b.offered + 1, dropped := b.dropped + 1)
    else b.(offered := b.offered + 1, queue := b.queue + [m],
            published := b.published + 1, accepted := b.accepted + [m])
  }

  function DoEffect(b: Bus, e: Effect): Bus {
    match e
    case Publish(m) => DoPublish(b, m)
    case Subscribe(s) => b.(subscriptions := b.subscriptions + [s])
  }

  function DoEffects(b: Bus, es: seq<Effect>): Bus {
    if es == [] then b else DoEffect(DoEffects(b, es[..|es| - 1]), es[|es| - 1])
  }

  /** One handler invocation, with everything the handler does in return. */
  function Invoke(b: Bus, subscriber: nat, m: Message, handlers: Handlers): Bus {
    DoEffects(b.(calls := b.calls + [HandlerCall(subscriber, m)]), handlers(|b.calls|))
  }

  function InvokeAll(b: Bus, subscribers: seq<nat>, m: Message, handlers: Handlers): Bus {
    if subscribers == [] then b
    else
      Invoke(InvokeAll(b, subscribers[..|subscribers| - 1], m, handlers), subscribers[|subscribers| - 1], m, handlers)
  }

  /** Positions of the subscriptions whose pattern accepts the topic, in order. */
  function Matching(subscriptions: seq<Subscription>, topic: string): (found: seq<nat>)
    ensures forall i :: 0 <= i < |found| ==> found[i] < |subscriptions|
    ensures forall k :: k in found <==> 0 <= k < |subscriptions| && Matches(subscriptions[k].pattern, topic)
    ensures forall i, j :: 0 <= i < j < |found| ==> found[i] < found[j]
  {
    if subscriptions == [] then []
    else
      var last := |subscriptions| - 1;
      var front := Matching(subscriptions[..last], topic);
      if Matches(subscriptions[last].pattern, topic) then front + [last] else front
  }

  /** Take the head message and hand it to the subscriptions present at that moment. */
  function DispatchHead(b: Bus, handlers: Handlers): Bus
    requires b.queue != []
  {
    var m := b.queue[0];
    var taken := b.(queue := b.queue[1..], dispatched := b.dispatched + [m]);
    InvokeAll(taken, Matching(b.subscriptions, m.topic), m, handlers)
  }

  function DrainLoop(b: Bus, limit: nat, handlers: Handlers): Bus
    decreases limit
  {
    if limit == 0 || b.queue == [] then b
    else DrainLoop(DispatchHead(b, handlers), limit - 1, handlers)
  }

  /** The delivered counter moves only when the drain is over. */
  function Drained(b: Bus, limit: nat, handlers: Handlers): Bus {
    var after := DrainLoop(b, limit, handlers);
    DrainLoopGrows(b, limit, handlers);
    after.(delivered := after.delivered + |after.dispatched| - |b.dispatched|)
  }

  // ----- The bus object -----

  class MessageBus {
    const maxDepth: int
    var queue: seq<Message>
    var subscriptions: seq<Subscription>
    var published: nat
    var dropped: nat
    var delivered: nat
    var calls: seq<HandlerCall>
    ghost var offered: nat
    ghost var accepted: seq<Message>
    ghost var dispatched: seq<Message>

    ghost function View(): Bus
      reads this
    {
      Bus(maxDepth, queue, subscriptions, published, dropped, delivered, offered, accepted, dispatched, calls)
    }

    constructor (depth: int)
      ensures View() == NewBus(depth)
    {
      maxDepth := depth;
      queue, subscriptions, calls := [], [], [];
      published, dropped, delivered := 0, 0, 0;
      offered, accepted, dispatched := 0, [], [];
    }

    method Subscribe(pattern: string)
      modifies this
      ensures View() == DoEffect(old(View()), Effect.Subscribe(Subscription(pattern)))
    {
      subscriptions := subscriptions + [Subscription(pattern)];
    }

    method Publish(m: Message)
      modifies this
      ensures View() == DoPublish(old(View()), m)
    {
      offered := offered + 1;
      if maxDepth > 0 && |queue| >= maxDepth {
        dropped := dropped + 1;
        return;
      }
      queue := queue + [m];
      accepted := accepted + [m];
      published := published + 1;
    }

    method Drain(limit: nat, handlers: Handlers) returns (count: nat)
      modifies this
      ensures View() == Drained(old(View()), limit, handlers)
      ensures count == |dispatched| - |old(dispatched)|
    {
      hide DrainLoop, DispatchHead, Grows;
      count := 0;
      ghost var start, now := View(), View();
      while count < limit
        invariant count <= limit
        invariant View() == now
        invariant |now.dispatched| == |start.dispatched| + count
        invariant DrainLoop(start, limit, handlers) == DrainLoop(now, limit - count, handlers)
        invariant now.delivered == start.delivered
      {
        if queue == [] {
          break;
        }
        DrainLoopStep(now, limit - count, handlers);
        TakeAndDispatch(handlers);
        now := View();
        count := count + 1;
      }
      DrainLoopEnds(now, limit - count, handlers);
      delivered := delivered + count;
    }

    /** One round of the drain loop: get the head message, dispatch it. */
    method TakeAndDispatch(handlers: Handlers)
      requires queue != []
      modifies this
      ensures View() == DispatchHead(old(View()), handlers)
      ensures |dispatched| == |old(dispatched)| + 1 && delivered == old(delivered)
    {
      DispatchHeadGrows(View(), handlers);
      var m := queue[0];
      queue := queue[1..];
      dispatched := dispatched + [m];
      Dispatch(m, handlers);
    }

    method Dispatch(m: Message, handlers: Handlers)
      modifies this
      ensures View() == InvokeAll(old(View()), Matching(old(subscriptions), m.topic), m, handlers)
    {
      var found := Matching(subscriptions, m.topic);
      for i := 0 to |found|
        invariant View() == InvokeAll(old(View()), found[..i], m, handlers)
      {
        assert found[..i + 1][..i] == found[..i];
        Call(found[i], m, handlers);
      }
      assert found[..|found|] == found;
    }

    /** The handler call, with the oracle's effects standing for the handler's body. */
    method Call(subscriber: nat, m: Message, handlers: Handlers)
      modifies this
      ensures View() == Invoke(old(View()), subscriber, m, handlers)
    {
      var effects := handlers(|calls|);
      calls := calls + [HandlerCall(subscriber, m)];
      ghost var start := View();
      for i := 0 to |effects|
        invariant View() == DoEffects(start, effects[..i])
      {
        assert effects[..i + 1][..i] == effects[..i];
        match effects[i]
        case Publish(p) => Publish(p);
        case Subscribe(s) => Subscribe(s.pattern);
      }
      assert effects[..|effects|] == effects;
    }
  }

  // ----- What every step keeps -----

  ghost predicate Sound(b: Bus) {
    && b.dispatched + b.queue == b.accepted
    && b.published == |b.accepted|
    && b.offered == b.published + b.dropped
    && (b.depth > 0 ==> |b.queue| <= b.depth)
  }

  /** A new bus has nothing queued, nobody subscribed and nothing counted, and all that follows starts from there. */
  lemma NewBusIsIdle(depth: int)
    ensures var b := NewBus(depth);
            && Sound(b) && b.delivered == |b.dispatched| && CallsKnown(b)
            && b.depth == depth && b.queue == [] && b.subscriptions == [] && b.accepted == [] && b.calls == []
            && b.offered == b.published == b.dropped == b.delivered == 0
  {
  }

  /** How a bus may differ from an earlier self when no message has been taken in between. */
  ghost predicate Fills(b: Bus, c: Bus) {
    && c.depth == b.depth && c.dispatched == b.dispatched && c.delivered == b.delivered
    && b.queue <= c.queue && b.subscriptions <= c.subscriptions && b.accepted <= c.accepted
    && (Sound(b) ==> Sound(c))
  }

  lemma {:induction false} DoEffectsFills(b: Bus, es: seq<Effect>)
    ensures Fills(b, DoEffects(b, es)) && DoEffects(b, es).calls == b.calls
  {
    if es != [] {
      DoEffectsFills(b, es[..|es| - 1]);
      var c := DoEffects(b, es[..|es| - 1]);
      if es[|es| - 1].Publish? {
        assert c.dispatched + (c.queue + [es[|es| - 1].message])
            == (c.dispatched + c.queue) + [es[|es| - 1].message];
      }
    }
  }

  lemma {:induction false} InvokeAllKeeps(b: Bus, subscribers: seq<nat>, m: Message, handlers: Handlers)
    ensures var c := InvokeAll(b, subscribers, m, handlers);
            && Fills(b, c)
            && c.calls == b.calls
                          + seq(|subscribers|, i requires 0 <= i < |subscribers| => HandlerCall(subscribers[i], m))
  {
    if subscribers != [] {
      var front := subscribers[..|subscribers| - 1];
      InvokeAllKeeps(b, front, m, handlers);
      var c := InvokeAll(b, front, m, handlers);
      DoEffectsFills(c.(calls := c.calls + [HandlerCall(subscribers[|subscribers| - 1], m)]), handlers(|c.calls|));
    }
  }

  /** How a bus may differ from an earlier self in general. */
  ghost predicate Grows(b: Bus, c: Bus) {
    && c.depth == b.depth
    && b.subscriptions <= c.subscriptions && b.accepted <= c.accepted && b.dispatched <= c.dispatched
    && (Sound(b) ==> Sound(c))
  }

  lemma DispatchHeadGrows(b: Bus, handlers: Handlers)
    requires b.queue != []
    ensures var c := DispatchHead(b, handlers);
            && Grows(b, c) && c.dispatched == b.dispatched + [b.queue[0]]
            && b.queue[1..] <= c.queue && c.delivered == b.delivered
  {
    var m := b.queue[0];
    var taken := b.(queue := b.queue[1..], dispatched := b.dispatched + [m]);
    assert b.queue == [m] + b.queue[1..];
    assert (b.dispatched + [m]) + b.queue[1..] == b.dispatched + b.queue;
    InvokeAllKeeps(taken, Matching(b.subscriptions, m.topic), m, handlers);
  }

  /** A drain takes as many messages as the limit allows, and stops short only on an empty queue. */
  lemma {:induction false} DrainLoopGrows(b: Bus, limit: nat, handlers: Handlers)
    ensures var c := DrainLoop(b, limit, handlers);
            var taken := |c.dispatched| - |b.dispatched|;
            && Grows(b, c) && c.delivered == b.delivered
            && 0 <= taken <= limit
            && (taken < limit ==> c.queue == [])
            && (taken < |b.queue| ==> b.queue[taken..] <= c.queue)
    decreases limit
  {
    hide DrainLoop, DispatchHead, Sound;
    if limit > 0 && b.queue != [] {
      var d := DispatchHead(b, handlers);
      DispatchHeadGrows(b, handlers);
      DrainLoopStep(b, limit, handlers);
      DrainLoopGrows(d, limit - 1, handlers);
    } else {
      DrainLoopEnds(b, limit, handlers);
    }
  }

  lemma DrainLoopStep(b: Bus, limit: nat, handlers: Handlers)
    requires limit > 0 && b.queue != []
    ensures DrainLoop(b, limit, handlers) == DrainLoop(DispatchHead(b, handlers), limit - 1, handlers)
  {
  }

  lemma DrainLoopEnds(b: Bus, limit: nat, handlers: Handlers)
    requires limit == 0 || b.queue == []
    ensures DrainLoop(b, limit, handlers) == b
  {
  }

  // ----- Whole runs -----

  datatype Operation = Do(effect: Effect) | DrainUpTo(limit: nat)

  function Operate(b: Bus, op: Operation, handlers: Handlers): Bus {
    match op
    case Do(e) => DoEffect(b, e)
    case DrainUpTo(limit) => Drained(b, limit, handlers)
  }

  function OperateAll(b: Bus, ops: seq<Operation>, handlers: Handlers): Bus
    decreases |ops|
  {
    if ops == [] then b else OperateAll(Operate(b, ops[0], handlers), ops[1..], handlers)
  }

  lemma OperateGrows(b: Bus, op: Operation, handlers: Handlers)
    ensures Grows(b, Operate(b, op, handlers))
    ensures b.delivered == |b.dispatched| ==>
              Operate(b, op, handlers).delivered == |Operate(b, op, handlers).dispatched|
  {
    match op
    case Do(e) =>
      assert DoEffects(b, []) == b && [e][..0] == [];
      assert DoEffects(b, [e]) == DoEffect(b, e);
      DoEffectsFills(b, [e]);
    case DrainUpTo(limit) => DrainLoopGrows(b, limit, handlers);
  }

  /**
   FIFO and conservation, over every run of publishes, subscribes and drains and whatever
   the handlers do: what was dispatched followed by what is queued is exactly what was
   accepted, in publish order; every publish call was either accepted or counted as dropped;
   and between calls every accepted message is delivered or still queued.
   */
  lemma {:induction false} FifoConservation(b: Bus, ops: seq<Operation>, handlers: Handlers)
    requires Sound(b) && b.delivered == |b.dispatched|
    ensures var c := OperateAll(b, ops, handlers);
            && Grows(b, c)
            && c.dispatched + c.queue == c.accepted
            && c.offered == c.published + c.dropped
            && c.published == c.delivered + |c.queue|
            && (c.depth > 0 ==> |c.queue| <= c.depth)
    decreases |ops|
  {
    if ops != [] {
      OperateGrows(b, ops[0], handlers);
      FifoConservation(Operate(b, ops[0], handlers), ops[1..], handlers);
    } else {
      assert |b.dispatched + b.queue| == |b.accepted|;
    }
  }

  // ----- Delivery to one subscriber -----

  function ReceivedBy(calls: seq<HandlerCall>, k: nat): seq<Message> {
    if calls == [] then []
    else
      var front := ReceivedBy(calls[..|calls| - 1], k);
      if calls[|calls| - 1].subscriber == k then front + [calls[|calls| - 1].message] else front
  }

  function Selected(pattern: string, ms: seq<Message>): seq<Message> {
    if ms == [] then []
    else
      (if Matches(pattern, ms[0].topic) then [ms[0]] else []) + Selected(pattern, ms[1..])
  }

  lemma {:induction false} ReceivedByConcat(a: seq<HandlerCall>, b: seq<HandlerCall>, k: nat)
    ensures ReceivedBy(a + b, k) == ReceivedBy(a, k) + ReceivedBy(b, k)
  {
    if b == [] {
      assert a + b == a;
    } else {
      assert (a + b)[..|a + b| - 1] == a + b[..|b| - 1];
      ReceivedByConcat(a, b[..|b| - 1], k);
    }
  }

  lemma {:induction false} SelectedConcat(pattern: string, a: seq<Message>, b: seq<Message>)
    ensures Selected(pattern, a + b) == Selected(pattern, a) + Selected(pattern, b)
  {
    if a == [] {
      assert a + b == b;
    } else {
      assert (a + b)[0] == a[0] && (a + b)[1..] == a[1..] + b;
      SelectedConcat(pattern, a[1..], b);
      var head := if Matches(pattern, a[0].topic) then [a[0]] else [];
      assert head + (Selected(pattern, a[1..]) + Selected(pattern, b))
          == head + Selected(pattern, a[1..]) + Selected(pattern, b);
    }
  }

  /** A message handed to an increasing list of subscribers reaches each of them once. */
  lemma {:induction false} OneCallEach(subscribers: seq<nat>, m: Message, k: nat)
    requires forall i, j :: 0 <= i < j < |subscribers| ==> subscribers[i] < subscribers[j]
    ensures ReceivedBy(seq(|subscribers|, i requires 0 <= i < |subscribers| => HandlerCall(subscribers[i], m)), k)
         == if k in subscribers then [m] else []
  {
    var calls := seq(|subscribers|, i requires 0 <= i < |subscribers| => HandlerCall(subscribers[i], m));
    if subscribers != [] {
      var front := subscribers[..|subscribers| - 1];
      OneCallEach(front, m, k);
      assert calls[..|calls| - 1] == seq(|front|, i requires 0 <= i < |front| => HandlerCall(front[i], m));
      assert k in subscribers <==> k in front || k == subscribers[|subscribers| - 1];
    }
  }

  /** Between two states, subscriber k was called with its pattern's share of what was dispatched. */
  ghost predicate Served(b: Bus, c: Bus, k: nat)
    requires k < |b.subscriptions|
  {
    && b.dispatched <= c.dispatched
    && ReceivedBy(c.calls, k) == ReceivedBy(b.calls, k)
                                 + Selected(b.subscriptions[k].pattern, c.dispatched[|b.dispatched|..])
  }

  lemma ServedTransitive(b: Bus, c: Bus, d: Bus, k: nat)
    requires k < |b.subscriptions| && b.subscriptions <= c.subscriptions
    requires Served(b, c, k) && Served(c, d, k)
    ensures Served(b, d, k)
  {
    var first, second := c.dispatched[|b.dispatched|..], d.dispatched[|c.dispatched|..];
    assert d.dispatched[|b.dispatched|..] == first + second;
    SelectedConcat(b.subscriptions[k].pattern, first, second);
  }

  lemma DispatchHeadServes(b: Bus, handlers: Handlers, k: nat)
    requires b.queue != [] && k < |b.subscriptions|
    ensures Served(b, DispatchHead(b, handlers), k)
  {
    var m := b.queue[0];
    var found := Matching(b.subscriptions, m.topic);
    var taken := b.(queue := b.queue[1..], dispatched := b.dispatched + [m]);
    InvokeAllKeeps(taken, found, m, handlers);
    var made := seq(|found|, i requires 0 <= i < |found| => HandlerCall(found[i], m));
    ReceivedByConcat(b.calls, made, k);
    OneCallEach(found, m, k);
    assert (b.dispatched + [m])[|b.dispatched|..] == [m];
    assert Selected(b.subscriptions[k].pattern, [m][1..]) == [];
  }

  lemma {:induction false} DrainLoopServes(b: Bus, limit: nat, handlers: Handlers, k: nat)
    requires k < |b.subscriptions|
    ensures Served(b, DrainLoop(b, limit, handlers), k)
    decreases limit
  {
    hide DrainLoop, DispatchHead, Served, Sound;
    if limit > 0 && b.queue != [] {
      var d := DispatchHead(b, handlers);
      DispatchHeadGrows(b, handlers);
      DispatchHeadServes(b, handlers, k);
      DrainLoopStep(b, limit, handlers);
      DrainLoopServes(d, limit - 1, handlers, k);
      ServedTransitive(b, d, DrainLoop(b, limit, handlers), k);
    } else {
      DrainLoopEnds(b, limit, handlers);
      ServedByNothing(b, k);
    }
  }

  lemma ServedByNothing(b: Bus, k: nat)
    requires k < |b.subscriptions|
    ensures Served(b, b, k)
  {
  }

  /**
   Delivery, over every run: a subscription present at the start is called with exactly the
   messages dispatched since whose topics its pattern accepts, each once and in publish order,
   whatever handlers publish, subscribe or raise meanwhile.
   */
  lemma {:induction false} DeliveryIsSelection(b: Bus, ops: seq<Operation>, handlers: Handlers, k: nat)
    requires k < |b.subscriptions|
    ensures Served(b, OperateAll(b, ops, handlers), k)
    decreases |ops|
  {
    if ops != [] {
      var c := Operate(b, ops[0], handlers);
      OperateGrows(b, ops[0], handlers);
      if ops[0].DrainUpTo? {
        DrainLoopServes(b, ops[0].limit, handlers, k);
      }
      assert Served(b, c, k);
      DeliveryIsSelection(c, ops[1..], handlers, k);
      ServedTransitive(b, c, OperateAll(b, ops, handlers), k);
    }
  }

  // ----- Subscriptions made on the way -----

  /** Every handler call was made to a subscription that exists. */
  ghost predicate CallsKnown(b: Bus) {
    forall i :: 0 <= i < |b.calls| ==> b.calls[i].subscriber < |b.subscriptions|
  }

  /** From b to c, calls are only added, and none to a subscription b does not have. */
  ghost predicate CallsOnly(b: Bus, c: Bus) {
    && b.subscriptions <= c.subscriptions && (CallsKnown(b) ==> CallsKnown(c))
  }

  lemma DispatchHeadCallsKnown(b: Bus, handlers: Handlers)
    requires b.queue != []
    ensures CallsOnly(b, DispatchHead(b, handlers))
  {
    var taken := b.(queue := b.queue[1..], dispatched := b.dispatched + [b.queue[0]]);
    InvokeAllKeeps(taken, Matching(b.subscriptions, b.queue[0].topic), b.queue[0], handlers);
  }

  lemma {:induction false} DrainCallsKnown(b: Bus, limit: nat, handlers: Handlers)
    ensures CallsOnly(b, DrainLoop(b, limit, handlers))
    decreases limit
  {
    hide DispatchHead;
    if limit > 0 && b.queue != [] {
      DispatchHeadCallsKnown(b, handlers);
      DrainCallsKnown(DispatchHead(b, handlers), limit - 1, handlers);
    }
  }

  lemma {:induction false} RunCallsKnown(b: Bus, ops: seq<Operation>, handlers: Handlers)
    ensures CallsOnly(b, OperateAll(b, ops, handlers))
    decreases |ops|
  {
    if ops != [] {
      if ops[0].DrainUpTo? {
        DrainCallsKnown(b, ops[0].limit, handlers);
      }
      RunCallsKnown(Operate(b, ops[0], handlers), ops[1..], handlers);
    }
  }

  lemma {:induction false} NeverCalled(calls: seq<HandlerCall>, k: nat)
    requires forall i :: 0 <= i < |calls| ==> calls[i].subscriber != k
    ensures ReceivedBy(calls, k) == []
  {
    if calls != [] {
      NeverCalled(calls[..|calls| - 1], k);
    }
  }

  lemma {:induction false} OperateConcat(b: Bus, first: seq<Operation>, second: seq<Operation>, handlers: Handlers)
    ensures OperateAll(b, first + second, handlers) == OperateAll(OperateAll(b, first, handlers), second, handlers)
    decreases |first|
  {
    hide Operate;
    if first == [] {
      assert first + second == second;
    } else {
      assert (first + second)[0] == first[0] && (first + second)[1..] == first[1..] + second;
      OperateConcat(Operate(b, first[0], handlers), first[1..], second, handlers);
    }
  }

  /**
   A subscription made in the middle of a run takes the next position, moves no earlier one, and is
   called from then on with exactly the messages dispatched since whose topics its pattern accepts.
   */
  lemma SubscribingRegisters(b: Bus, before: seq<Operation>, s: Subscription, after: seq<Operation>,
                             handlers: Handlers)
    requires CallsKnown(b)
    ensures var d := OperateAll(b, before, handlers);
            var c, k := OperateAll(b, before + [Do(Subscribe(s))] + after, handlers), |d.subscriptions|;
            && d.subscriptions + [s] <= c.subscriptions
            && d.dispatched <= c.dispatched
            && ReceivedBy(c.calls, k) == Selected(s.pattern, c.dispatched[|d.dispatched|..])
  {
    hide OperateAll, ReceivedBy, Selected, CallsKnown;
    var d := OperateAll(b, before, handlers);
    var k, subscribed := |d.subscriptions|, d.(subscriptions := d.subscriptions + [s]);
    SubscribeOperation(d, s, handlers);
    OperateConcat(b, before, [Do(Subscribe(s))], handlers);
    OperateConcat(b, before + [Do(Subscribe(s))], after, handlers);
    RunCallsKnown(b, before, handlers);
    NoCallsYet(d);
    RunGrows(subscribed, after, handlers);
    DeliveryIsSelection(subscribed, after, handlers, k);
  }

  lemma SubscribeOperation(b: Bus, s: Subscription, handlers: Handlers)
    ensures OperateAll(b, [Do(Subscribe(s))], handlers) == b.(subscriptions := b.subscriptions + [s])
  {
    assert [Do(Subscribe(s))][1..] == [];
  }

  lemma NoCallsYet(b: Bus)
    requires CallsKnown(b)
    ensures ReceivedBy(b.calls, |b.subscriptions|) == []
  {
    NeverCalled(b.calls, |b.subscriptions|);
  }

  // ----- Every publish is counted -----

  function PublishCount(es: seq<Effect>): nat {
    if es == [] then 0 else PublishCount(es[..|es| - 1]) + if es[|es| - 1].Publish? then 1 else 0
  }

  /** What handler calls number `from` and up, before `next`, publish. */
  function HandlerPublishes(handlers: Handlers, from: nat, next: nat): nat
    requires from <= next
  {
    if from == next then 0 else HandlerPublishes(handlers, from, next - 1) + PublishCount(handlers(next - 1))
  }

  function OperationPublishes(ops: seq<Operation>): nat {
    if ops == [] then 0
    else (if ops[0].Do? && ops[0].effect.Publish? then 1 else 0) + OperationPublishes(ops[1..])
  }

  /** From b to c, what was offered besides `direct` is what the handler calls made in between published. */
  ghost predicate Counted(b: Bus, c: Bus, handlers: Handlers, direct: nat) {
    && |b.calls| <= |c.calls|
    && c.offered == b.offered + direct + HandlerPublishes(handlers, |b.calls|, |c.calls|)
  }

  lemma {:induction false} HandlerPublishesSplit(handlers: Handlers, from: nat, between: nat, next: nat)
    requires from <= between <= next
    ensures HandlerPublishes(handlers, from, next)
         == HandlerPublishes(handlers, from, between) + HandlerPublishes(handlers, between, next)
    decreases next
  {
    if between < next {
      HandlerPublishesSplit(handlers, from, between, next - 1);
    }
  }

  lemma CountedTransitive(b: Bus, c: Bus, d: Bus, handlers: Handlers, first: nat, second: nat)
    requires Counted(b, c, handlers, first) && Counted(c, d, handlers, second)
    ensures Counted(b, d, handlers, first + second)
  {
    HandlerPublishesSplit(handlers, |b.calls|, |c.calls|, |d.calls|);
  }

  lemma {:induction false} EffectsCounted(b: Bus, es: seq<Effect>)
    ensures DoEffects(b, es).offered == b.offered + PublishCount(es) && DoEffects(b, es).calls == b.calls
  {
    if es != [] {
      EffectsCounted(b, es[..|es| - 1]);
    }
  }

  lemma {:induction false} InvokeAllCounted(b: Bus, subscribers: seq<nat>, m: Message, handlers: Handlers)
    ensures Counted(b, InvokeAll(b, subscribers, m, handlers), handlers, 0)
  {
    if subscribers != [] {
      var front, last := subscribers[..|subscribers| - 1], subscribers[|subscribers| - 1];
      InvokeAllCounted(b, front, m, handlers);
      var c := InvokeAll(b, front, m, handlers);
      EffectsCounted(c.(calls := c.calls + [HandlerCall(last, m)]), handlers(|c.calls|));
    }
  }

  lemma {:induction false} DrainCounted(b: Bus, limit: nat, handlers: Handlers)
    ensures Counted(b, DrainLoop(b, limit, handlers), handlers, 0)
    decreases limit
  {
    if limit > 0 && b.queue != [] {
      var taken := b.(queue := b.queue[1..], dispatched := b.dispatched + [b.queue[0]]);
      InvokeAllCounted(taken, Matching(b.subscriptions, b.queue[0].topic), b.queue[0], handlers);
      DrainCounted(DispatchHead(b, handlers), limit - 1, handlers);
      CountedTransitive(b, DispatchHead(b, handlers), DrainLoop(b, limit, handlers), handlers, 0, 0);
    }
  }

  /**
   Nothing published goes uncounted: over every run, what the bus was offered is what the run's own
   operations publish plus what each handler call it made publishes.
   */
  lemma {:induction false} EveryPublishCounted(b: Bus, ops: seq<Operation>, handlers: Handlers)
    ensures Counted(b, OperateAll(b, ops, handlers), handlers, OperationPublishes(ops))
    decreases |ops|
  {
    hide DrainLoop;
    if ops != [] {
      var c := Operate(b, ops[0], handlers);
      if ops[0].DrainUpTo? {
        DrainCounted(b, ops[0].limit, handlers);
      }
      EveryPublishCounted(c, ops[1..], handlers);
      var first := if ops[0].Do? && ops[0].effect.Publish? then 1 else 0;
      CountedTransitive(b, c, OperateAll(b, ops, handlers), handlers, first, OperationPublishes(ops[1..]));
    }
  }

  // ----- Bounded waiting -----

  function Drains(ops: seq<Operation>): nat {
    if ops == [] then 0 else (if ops[0].DrainUpTo? then 1 else 0) + Drains(ops[1..])
  }

  /**
   Bounded waiting: with drains of one limit, the message now at queue position k has been
   dispatched exactly when more than k/limit drains have happened, however many messages are
   published before, between or during them. Its place in the dispatch order is fixed now.
   */
  lemma {:induction false} BoundedWaiting(b: Bus, ops: seq<Operation>, handlers: Handlers, limit: nat, k: nat)
    requires Sound(b) && k < |b.queue|
    requires forall op :: op in ops && op.DrainUpTo? ==> op.limit == limit
    ensures var c := OperateAll(b, ops, handlers);
            && (|c.dispatched| > |b.dispatched| + k <==> Drains(ops) * limit > k)
            && (|c.dispatched| > |b.dispatched| + k ==> c.dispatched[|b.dispatched| + k] == b.queue[k])
    decreases |ops|
  {
    hide Operate, Sound, Grows;
    if ops != [] {
      var op := ops[0];
      var c := Operate(b, op, handlers);
      assert op in ops;
      OperateGrows(b, op, handlers);
      GrowsKeepsSound(b, c);
      if op.Do? {
        EffectKeepsPlace(b, op.effect, handlers, k);
        BoundedWaiting(c, ops[1..], handlers, limit, k);
      } else {
        DrainAdvancesPlace(b, limit, handlers, k);
        OneMoreDrain(Drains(ops[1..]), limit);
        var taken := |c.dispatched| - |b.dispatched|;
        if k < taken {
          RunGrows(c, ops[1..], handlers);
          TakenInOrder(b, c, OperateAll(c, ops[1..], handlers), k);
        } else {
          BoundedWaiting(c, ops[1..], handlers, limit, k - taken);
        }
      }
    }
  }

  lemma GrowsKeepsSound(b: Bus, c: Bus)
    requires Sound(b) && Grows(b, c)
    ensures Sound(c)
  {
  }

  lemma EffectKeepsPlace(b: Bus, e: Effect, handlers: Handlers, k: nat)
    requires k < |b.queue|
    ensures var c := Operate(b, Do(e), handlers);
            c.dispatched == b.dispatched && k < |c.queue| && c.queue[k] == b.queue[k]
  {
  }

  /** One drain either dispatches position k or moves it forward by the full limit. */
  lemma DrainAdvancesPlace(b: Bus, limit: nat, handlers: Handlers, k: nat)
    requires k < |b.queue|
    ensures var c := Operate(b, DrainUpTo(limit), handlers);
            var taken := |c.dispatched| - |b.dispatched|;
            && 0 <= taken <= limit
            && (taken <= k ==> taken == limit && k - taken < |c.queue| && c.queue[k - taken] == b.queue[k])
  {
    DrainLoopGrows(b, limit, handlers);
    var after := DrainLoop(b, limit, handlers);
    var taken := |after.dispatched| - |b.dispatched|;
    if taken <= k {
      assert b.queue[taken..][k - taken] == b.queue[k];
    }
  }

  lemma OneMoreDrain(drains: nat, limit: nat)
    ensures (drains + 1) * limit == limit + drains * limit && drains * limit >= 0
  {
  }

  lemma TakenInOrder(b: Bus, c: Bus, d: Bus, k: nat)
    requires Sound(b) && Grows(b, c) && Grows(c, d)
    requires k < |b.queue| && |b.dispatched| + k < |c.dispatched|
    ensures |b.dispatched| + k < |d.dispatched|
    ensures d.dispatched[|b.dispatched| + k] == b.queue[k]
  {
    assert c.accepted[|b.dispatched| + k] == b.accepted[|b.dispatched| + k] == b.queue[k];
    assert c.accepted[|b.dispatched| + k] == c.dispatched[|b.dispatched| + k];
  }

  lemma {:induction false} RunGrows(b: Bus, ops: seq<Operation>, handlers: Handlers)
    ensures Grows(b, OperateAll(b, ops, handlers))
    decreases |ops|
  {
    if ops != [] {
      OperateGrows(b, ops[0], handlers);
      RunGrows(Operate(b, ops[0], handlers), ops[1..], handlers);
    }
  }

  /** At the defaults, no accepted message waits for more than sixteen drains. */
  lemma SixteenDrainsAtDefaults(b: Bus, ops: seq<Operation>, handlers: Handlers, k: nat)
    requires Sound(b) && b.depth == MAX_QUEUE_DEPTH && k < |b.queue|
    requires forall op :: op in ops && op.DrainUpTo? ==> op.limit == DRAIN_LIMIT
    requires Drains(ops) >= 16
    ensures var c := OperateAll(b, ops, handlers);
            |c.dispatched| > |b.dispatched| + k && c.dispatched[|b.dispatched| + k] == b.queue[k]
  {
    BoundedWaiting(b, ops, handlers, DRAIN_LIMIT, k);
  }
}
