/**
 What the control loop does to the bus, over any list of iterations: it is a run of bus operations
 with one drain a round, so what is proved of such runs holds of the loop.
 */
module ServiceRuns {
  import opened MessageBuses
  import opened Topics
  import opened Service
  import opened Detection
  import opened SystemDelivery

  // ----- The loop's operations -----

  function PublishOps(ms: seq<Message>): (ops: seq<Operation>)
    ensures |ops| == |ms| && forall i :: 0 <= i < |ms| ==> ops[i] == Do(Publish(ms[i]))
  {
    seq(|ms|, i requires 0 <= i < |ms| => Do(Publish(ms[i])))
  }

  /** What the checks publish in one iteration, check by check. */
  function TurnMessages(turns: seq<Turn>): seq<Message> {
    if turns == [] then [] else TurnMessages(turns[..|turns| - 1]) + turns[|turns| - 1].messages
  }

  /** One iteration as bus operations: drain first, then publish what the checks report. */
  function StepOperations(turns: seq<Turn>): seq<Operation> {
    [DrainUpTo(256)] + PublishOps(TurnMessages(turns))
  }

  function LoopOperations(its: seq<Iteration>): seq<Operation> {
    if its == [] then []
    else
      var it := its[|its| - 1];
      LoopOperations(its[..|its| - 1]) + (PublishOps(it.arrivals) + StepOperations(it.turns))
  }

  lemma {:induction false} PublishingIsOperating(b: Bus, ms: seq<Message>, handlers: Handlers)
    ensures OperateAll(b, PublishOps(ms), handlers) == DoEffects(b, Publishes(ms))
  {
    if ms == [] {
      assert PublishOps(ms) == [];
    } else {
      var front := ms[..|ms| - 1];
      PublishingIsOperating(b, front, handlers);
      assert PublishOps(ms)[..|ms| - 1] == PublishOps(front) && PublishOps(ms)[..|ms|] == PublishOps(ms);
      OneMoreOperation(b, PublishOps(ms), |ms| - 1, handlers);
      assert Publishes(ms)[..|ms| - 1] == Publishes(front);
    }
  }

  lemma {:induction false} TurnsAreOperations(b: Bus, turns: seq<Turn>, handlers: Handlers)
    ensures BusAfterTurns(b, turns) == OperateAll(b, PublishOps(TurnMessages(turns)), handlers)
  {
    hide OperateAll, DoEffects, Publishes;
    if turns == [] {
      NoOperations(b, handlers);
      assert PublishOps([]) == [];
    } else {
      var front, last := turns[..|turns| - 1], turns[|turns| - 1];
      TurnsAreOperations(b, front, handlers);
      PublishingIsOperating(BusAfterTurns(b, front), last.messages, handlers);
      OperateConcat(b, PublishOps(TurnMessages(front)), PublishOps(last.messages), handlers);
      assert PublishOps(TurnMessages(turns)) == PublishOps(TurnMessages(front)) + PublishOps(last.messages);
    }
  }

  lemma NoOperations(b: Bus, handlers: Handlers)
    ensures OperateAll(b, [], handlers) == b
  {
  }

  lemma OneDrain(b: Bus, handlers: Handlers)
    ensures OperateAll(b, [DrainUpTo(256)], handlers) == Drained(b, DRAIN_LIMIT, handlers)
  {
    assert [DrainUpTo(256)][1..] == [];
  }

  lemma StepIsOperations(b: Bus, turns: seq<Turn>, handlers: Handlers)
    ensures BusAfterStep(b, turns, handlers) == OperateAll(b, StepOperations(turns), handlers)
  {
    hide OperateAll, Drained, BusAfterTurns;
    OneDrain(b, handlers);
    TurnsAreOperations(Drained(b, DRAIN_LIMIT, handlers), turns, handlers);
    OperateConcat(b, [DrainUpTo(256)], PublishOps(TurnMessages(turns)), handlers);
  }

  /** The loop is the run of its operations. */
  lemma {:induction false} LoopIsOperations(b: Bus, its: seq<Iteration>, handlers: Handlers)
    ensures BusAfterSteps(b, its, handlers) == OperateAll(b, LoopOperations(its), handlers)
  {
    hide OperateAll, BusAfterStep, DoEffects, Publishes, StepOperations;
    if its == [] {
      NoOperations(b, handlers);
    } else {
      var front, it := its[..|its| - 1], its[|its| - 1];
      LoopIsOperations(b, front, handlers);
      var before := BusAfterSteps(b, front, handlers);
      PublishingIsOperating(before, it.arrivals, handlers);
      StepIsOperations(DoEffects(before, Publishes(it.arrivals)), it.turns, handlers);
      OperateConcat(before, PublishOps(it.arrivals), StepOperations(it.turns), handlers);
      OperateConcat(b, LoopOperations(front), PublishOps(it.arrivals) + StepOperations(it.turns), handlers);
    }
  }

  // ----- One drain a round -----

  lemma {:induction false} DrainsConcat(a: seq<Operation>, b: seq<Operation>)
    ensures Drains(a + b) == Drains(a) + Drains(b)
  {
    if a == [] {
      assert a + b == b;
    } else {
      assert (a + b)[0] == a[0] && (a + b)[1..] == a[1..] + b;
      DrainsConcat(a[1..], b);
    }
  }

  lemma {:induction false} PublishingDrainsNothing(ms: seq<Message>)
    ensures Drains(PublishOps(ms)) == 0
  {
    if ms != [] {
      PublishingDrainsNothing(ms[1..]);
      assert PublishOps(ms)[1..] == PublishOps(ms[1..]);
    }
  }

  lemma {:induction false} OneDrainARound(its: seq<Iteration>)
    ensures Drains(LoopOperations(its)) == |its|
    ensures forall op :: op in LoopOperations(its) && op.DrainUpTo? ==> op.limit == 256
  {
    if its != [] {
      var front, it := its[..|its| - 1], its[|its| - 1];
      OneDrainARound(front);
      PublishingDrainsNothing(it.arrivals);
      PublishingDrainsNothing(TurnMessages(it.turns));
      DrainsConcat([DrainUpTo(256)], PublishOps(TurnMessages(it.turns)));
      assert [DrainUpTo(256)][1..] == [];
      DrainsConcat(PublishOps(it.arrivals), StepOperations(it.turns));
      DrainsConcat(LoopOperations(front), PublishOps(it.arrivals) + StepOperations(it.turns));
    }
  }

  /**
   Bounded waiting in the loop: over any list of iterations, the message now at queue position k has
   been dispatched exactly when more than k / 256 of them have happened, whatever others, the checks
   and the handlers publish meanwhile.
   */
  lemma LoopDispatches(b: Bus, its: seq<Iteration>, handlers: Handlers, k: nat)
    requires Sound(b) && k < |b.queue|
    ensures var c := BusAfterSteps(b, its, handlers);
            && (|c.dispatched| > |b.dispatched| + k <==> |its| * 256 > k)
            && (|c.dispatched| > |b.dispatched| + k ==> c.dispatched[|b.dispatched| + k] == b.queue[k])
  {
    hide OperateAll, BusAfterSteps, Sound, LoopOperations;
    LoopIsOperations(b, its, handlers);
    OneDrainARound(its);
    BoundedWaiting(b, LoopOperations(its), handlers, 256, k);
  }

  /** Delivery in the loop: each subscription is called with its pattern's share of what the loop dispatches. */
  lemma LoopDelivers(b: Bus, its: seq<Iteration>, handlers: Handlers, k: nat)
    requires k < |b.subscriptions|
    ensures var c := BusAfterSteps(b, its, handlers);
            && b.dispatched <= c.dispatched
            && ReceivedBy(c.calls, k) == ReceivedBy(b.calls, k)
                                         + Selected(b.subscriptions[k].pattern, c.dispatched[|b.dispatched|..])
  {
    hide OperateAll, BusAfterSteps, LoopOperations, ReceivedBy, Selected;
    LoopIsOperations(b, its, handlers);
    DeliveryIsSelection(b, LoopOperations(its), handlers, k);
  }

  /** The loop keeps the bus sound and, between iterations, its delivered count exact. */
  lemma LoopKeepsBusSound(b: Bus, its: seq<Iteration>, handlers: Handlers)
    requires Sound(b) && b.delivered == |b.dispatched|
    ensures var c := BusAfterSteps(b, its, handlers);
            && Sound(c) && c.delivered == |c.dispatched| && Grows(b, c)
  {
    hide OperateAll, BusAfterSteps, LoopOperations;
    LoopIsOperations(b, its, handlers);
    FifoConservation(b, LoopOperations(its), handlers);
  }

  /** So does a single iteration. */
  lemma StepKeepsBusSound(b: Bus, turns: seq<Turn>, handlers: Handlers)
    requires Sound(b) && b.delivered == |b.dispatched|
    ensures var c := BusAfterStep(b, turns, handlers);
            && Sound(c) && c.delivered == |c.dispatched| && Grows(b, c)
  {
    hide OperateAll, BusAfterStep, StepOperations;
    StepIsOperations(b, turns, handlers);
    FifoConservation(b, StepOperations(turns), handlers);
  }

  // ----- The checks' messages -----

  /** How many of `offered` more messages a queue takes. */
  function Taken(b: Bus, offered: nat): (n: nat)
    requires b.depth > 0 ==> |b.queue| <= b.depth
    ensures n <= offered
  {
    if b.depth <= 0 || offered <= b.depth - |b.queue| then offered else b.depth - |b.queue|
  }

  /** Publishing one after another fills the queue in order and drops what comes after it is full. */
  lemma {:induction false} PublishingFillsQueue(b: Bus, ms: seq<Message>)
    requires b.depth > 0 ==> |b.queue| <= b.depth
    ensures var c, n := DoEffects(b, Publishes(ms)), Taken(b, |ms|);
            && c.queue == b.queue + ms[..n] && c.accepted == b.accepted + ms[..n]
            && c.published == b.published + n && c.dropped == b.dropped + |ms| - n
            && c.offered == b.offered + |ms|
            && c.dispatched == b.dispatched && c.calls == b.calls && c.depth == b.depth
            && c.subscriptions == b.subscriptions && c.delivered == b.delivered
  {
    if ms != [] {
      var front := ms[..|ms| - 1];
      PublishingFillsQueue(b, front);
      assert Publishes(ms)[..|ms| - 1] == Publishes(front);
      var n := Taken(b, |ms|);
      if n == |ms| {
        assert ms[..n] == front[..|front|] + [ms[|ms| - 1]];
      } else {
        assert ms[..n] == front[..n];
      }
    } else {
      assert Publishes(ms) == [];
    }
  }

  lemma {:induction false} TurnsPublishInOrder(b: Bus, turns: seq<Turn>)
    ensures BusAfterTurns(b, turns) == DoEffects(b, Publishes(TurnMessages(turns)))
  {
    hide OperateAll, DoEffects, Publishes;
    var quiet := (n: nat) => [];
    TurnsAreOperations(b, turns, quiet);
    PublishingIsOperating(b, TurnMessages(turns), quiet);
  }

  /**
   An iteration drains before its checks publish: after the drain, their messages fill the queue check
   by check, in order, up to its depth; the rest is dropped and counted; and no handler is called.
   */
  lemma StepPublishesAfterDrain(b: Bus, turns: seq<Turn>, handlers: Handlers)
    requires Sound(b)
    ensures var d, c, ms := OperateAll(b, [DrainUpTo(256)], handlers), BusAfterStep(b, turns, handlers),
                            TurnMessages(turns);
            && (d.depth > 0 ==> |d.queue| <= d.depth)
            && var n := Taken(d, |ms|);
               && c.queue == d.queue + ms[..n] && c.accepted == d.accepted + ms[..n]
               && c.dropped == d.dropped + |ms| - n && c.offered == d.offered + |ms|
               && c.dispatched == d.dispatched && c.calls == d.calls && c.subscriptions == d.subscriptions
  {
    hide OperateAll, DoEffects, Publishes, Drained, BusAfterTurns;
    OneDrain(b, handlers);
    RunGrows(b, [DrainUpTo(256)], handlers);
    var d := Drained(b, DRAIN_LIMIT, handlers);
    GrowsKeepsSound(b, d);
    TurnsPublishInOrder(d, turns);
    PublishingFillsQueue(d, TurnMessages(turns));
  }

  // ----- The last words -----

  lemma ShutDownIsOperations(b: Bus, status: Message, handlers: Handlers)
    ensures ShutDown(b, status, handlers)
         == OperateAll(b, [Do(Publish(status)), DrainUpTo(256), DrainUpTo(256)], handlers)
  {
    hide Drained;
    var ops := [Do(Publish(status)), DrainUpTo(256), DrainUpTo(256)];
    assert ops[1..] == [DrainUpTo(256), DrainUpTo(256)] && ops[1..][1..] == [DrainUpTo(256)];
    var first := DoPublish(b, status);
    var second := Drained(first, DRAIN_LIMIT, handlers);
    assert OperateAll(b, ops, handlers) == OperateAll(first, ops[1..], handlers)
        == OperateAll(second, ops[1..][1..], handlers);
    OneDrain(second, handlers);
  }

  /**
   The service's last status message reaches a subscriber to its topics, under the service's name and
   with the time of the shutdown, if the queue has room and at most 511 messages are before it.
   */
  lemma StatusReachesSubscriber(b: Bus, name: string, now: real, handlers: Handlers, k: nat) returns (status: Message)
    requires Sound(b) && HasRoom(b) && |b.queue| <= 511
    requires k < |b.subscriptions| && b.subscriptions[k].pattern == "health.monitor.*"
    ensures status.topic == "health.monitor.status" && status.source == name && status.at == now
    ensures var c := ShutDown(b, StatusMessage(name, now), handlers);
            && |b.dispatched| + |b.queue| < |c.dispatched| && c.dispatched[|b.dispatched| + |b.queue|] == status
            && ReceivedBy(b.calls, k) <= ReceivedBy(c.calls, k)
            && status in ReceivedBy(c.calls, k)[|ReceivedBy(b.calls, k)|..]
  {
    hide OperateAll, ShutDown, ReceivedBy, Selected, Matches, Sound, DoPublish;
    status := StatusMessage(name, now);
    var ops := [Do(Publish(status)), DrainUpTo(256), DrainUpTo(256)];
    var c := ShutDown(b, status, handlers);
    OfferKeepsSound(b, status);
    StatusDelivered(b, status, handlers);
    ShutDownIsOperations(b, status, handlers);
    DeliveryIsSelection(b, ops, handlers, k);
    WildcardDecodesOneSegment("health.monitor", "status");
    assert "health.monitor" + "." + "status" == "health.monitor.status";
    assert "health.monitor" + ".*" == "health.monitor.*";
    assert c.dispatched[|b.dispatched|..][|b.queue|] == status;
    SelectedMembers("health.monitor.*", c.dispatched[|b.dispatched|..], status);
  }

  // ----- The loop under the system's assumptions -----

  /** Where in the loop's operations iteration i drains. */
  function DrainPosition(its: seq<Iteration>, i: nat): nat
    requires i < |its|
  {
    |LoopOperations(its[..i])| + |its[i].arrivals|
  }

  lemma {:induction false} LoopOperationsPrefix(its: seq<Iteration>, i: nat)
    requires i <= |its|
    ensures LoopOperations(its[..i]) <= LoopOperations(its)
    decreases |its|
  {
    if i < |its| {
      assert its[..|its| - 1][..i] == its[..i];
      LoopOperationsPrefix(its[..|its| - 1], i);
    } else {
      assert its[..i] == its;
    }
  }

  lemma DrainAtPosition(its: seq<Iteration>, i: nat)
    requires i < |its|
    ensures DrainPosition(its, i) < |LoopOperations(its[..i + 1])| <= |LoopOperations(its)|
    ensures LoopOperations(its)[DrainPosition(its, i)] == DrainUpTo(256)
  {
    LoopOperationsPrefix(its, i + 1);
    assert its[..i + 1][..i] == its[..i];
    var ops := LoopOperations(its[..i + 1]);
    assert ops[|LoopOperations(its[..i])| + |its[i].arrivals|] == StepOperations(its[i].turns)[0];
  }

  lemma DrainPositionsIncrease(its: seq<Iteration>, i: nat, j: nat)
    requires i < j < |its|
    ensures DrainPosition(its, i) < DrainPosition(its, j)
  {
    DrainAtPosition(its, i);
    LoopOperationsPrefix(its[..j], i + 1);
    assert its[..j][..i + 1] == its[..i + 1];
  }

  /** The system's bus operations are the loop's, each drain timed between its round's waking and the check's poll. */
  ghost predicate DrivenByLoop(y: System, its: seq<Iteration>) {
    && y.ops == LoopOperations(its) && y.limit == 256 && |y.run.rounds| == |its|
    && |y.drains| == |its| && (forall i :: 0 <= i < |its| ==> y.drains[i] == DrainPosition(its, i))
    && |y.stamps| == |y.ops| && (forall a, b :: 0 <= a <= b < |y.stamps| ==> y.stamps[a] <= y.stamps[b])
    && (forall i :: 0 <= i < |its| ==> y.drains[i] < |y.stamps| && TimelyDrain(y, i))
  }

  ghost predicate TimelyDrain(y: System, i: nat)
    requires i < |y.drains| && i < |y.run.rounds| && y.drains[i] < |y.stamps|
  {
    && y.check < |y.run.rounds[i].polls|
    && y.run.rounds[i].wake <= y.stamps[y.drains[i]] <= y.run.rounds[i].polls[y.check]
  }

  /** What the system's results assume of its drains, the loop does. */
  lemma LoopDrainsEachRound(y: System, its: seq<Iteration>)
    requires DrivenByLoop(y, its)
    ensures LoopDrains(y)
    ensures forall i :: 0 <= i < |its| ==>
              AfterDrain(y, i) == OperateAll(BusAfterSteps(y.initial, its[..i], y.handlers),
                                             PublishOps(its[i].arrivals) + [DrainUpTo(256)], y.handlers)
  {
    hide OperateAll, BusAfterSteps, LoopOperations, DrainPosition;
    OneDrainARound(its);
    forall i | 0 <= i < |y.drains|
      ensures y.drains[i] < |y.ops| && DrainsIn(y, i)
    {
      DrainAtPosition(its, i);
      assert TimelyDrain(y, i);
    }
    forall i, j | 0 <= i < j < |y.drains|
      ensures y.drains[i] < y.drains[j]
    {
      DrainPositionsIncrease(its, i, j);
    }
    forall i | 0 <= i < |its|
      ensures AfterDrain(y, i) == OperateAll(BusAfterSteps(y.initial, its[..i], y.handlers),
                                             PublishOps(its[i].arrivals) + [DrainUpTo(256)], y.handlers)
    {
      OperationsUpToDrain(its, i);
      LoopIsOperations(y.initial, its[..i], y.handlers);
      OperateConcat(y.initial, LoopOperations(its[..i]), PublishOps(its[i].arrivals) + [DrainUpTo(256)], y.handlers);
    }
  }

  lemma OperationsUpToDrain(its: seq<Iteration>, i: nat)
    requires i < |its|
    ensures DrainPosition(its, i) < |LoopOperations(its)|
    ensures LoopOperations(its)[..DrainPosition(its, i) + 1]
         == LoopOperations(its[..i]) + (PublishOps(its[i].arrivals) + [DrainUpTo(256)])
  {
    DrainAtPosition(its, i);
    LoopOperationsPrefix(its, i + 1);
    assert its[..i + 1][..i] == its[..i];
    var upTo := LoopOperations(its[..i]) + (PublishOps(its[i].arrivals) + [DrainUpTo(256)]);
    assert LoopOperations(its[..i + 1]) == upTo + PublishOps(TurnMessages(its[i].turns));
  }
}
