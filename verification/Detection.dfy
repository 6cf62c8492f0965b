/**
 The bus, the control loop and the heartbeat check together: how a beacon reaches the check, and how
 long a silent peer goes unreported.
 */
module Detection {
  import opened Topics
  import opened MessageBuses
  import opened LivenessHistory
  import opened LivenessStreams
  import opened PeerDelivery
  import S = Scheduler

  // ----- From the bus to the heartbeat check -----

  lemma {:induction false} SelectedMembers(pattern: string, ms: seq<Message>, m: Message)
    ensures m in Selected(pattern, ms) <==> m in ms && Matches(pattern, m.topic)
  {
    if ms != [] {
      SelectedMembers(pattern, ms[1..], m);
      assert ms == [ms[0]] + ms[1..];
    }
  }

  /**
   A beacon for a peer, waiting at queue position j, is handed to the heartbeat subscription and
   decoded to that peer's name within j / limit + 1 drains if the name holds no dot, whatever else
   is published. A beacon for a dotted name is never handed to it at all.
   */
  lemma BeaconReachesCheck(b: Bus, ops: seq<Operation>, handlers: Handlers, limit: nat, j: nat, k: nat, peer: string)
      returns (seen: seq<Message>)
    requires Sound(b) && j < |b.queue| && b.queue[j].topic == PeerTopic(peer)
    requires k < |b.subscriptions| && b.subscriptions[k].pattern == PeerPattern()
    requires forall op :: op in ops && op.DrainUpTo? ==> op.limit == limit
    requires Drains(ops) * limit > j
    ensures ReceivedBy(OperateAll(b, ops, handlers).calls, k) == ReceivedBy(b.calls, k) + seen
    ensures b.queue[j] in seen <==> '.' !in peer
    ensures b.queue[j] in seen ==> LastSegment(b.queue[j].topic) == peer
  {
    hide Matches, LastSegment, Sound, OperateAll, ReceivedBy, Selected;
    var c := OperateAll(b, ops, handlers);
    BoundedWaiting(b, ops, handlers, limit, j);
    DeliveryIsSelection(b, ops, handlers, k);
    PeerTopicReachesPeer(peer);
    var taken := c.dispatched[|b.dispatched|..];
    assert taken[j] == b.queue[j];
    SelectedMembers(PeerPattern(), taken, b.queue[j]);
    seen := Selected(PeerPattern(), taken);
  }

  /**
   From attaching on: the check that subscribes to a bus, as Attach does, is called with exactly the
   messages dispatched since on topics of the form peer.heartbeat.<segment>; a peer's beacons are among
   them exactly if its name holds no dot.
   */
  lemma AttachedCheckHears(b: Bus, ops: seq<Operation>, handlers: Handlers, peer: string)
    requires CallsKnown(b)
    ensures var attached := DoEffect(b, Subscribe(Subscription(PeerPattern())));
            var k, c := |b.subscriptions|, OperateAll(attached, ops, handlers);
            && k < |c.subscriptions| && b.dispatched <= c.dispatched
            && (forall m :: m in ReceivedBy(c.calls, k) <==>
                              m in c.dispatched[|b.dispatched|..] && Matches(PeerPattern(), m.topic))
            && (forall m :: m in c.dispatched[|b.dispatched|..] && m.topic == PeerTopic(peer) ==>
                              (m in ReceivedBy(c.calls, k) <==> '.' !in peer))
  {
    hide Matches, OperateAll, ReceivedBy, Selected, CallsKnown, Operate, PeerTopic, PeerPattern;
    var s := Subscription(PeerPattern());
    NoOperation(b, handlers);
    SubscribingRegisters(b, [], s, ops, handlers);
    SubscribeOperation(b, s, handlers);
    OperateConcat(b, [Do(Subscribe(s))], ops, handlers);
    assert [] + [Do(Subscribe(s))] + ops == [Do(Subscribe(s))] + ops;
    var c := OperateAll(DoEffect(b, Subscribe(s)), ops, handlers);
    forall m: Message
      ensures m in Selected(PeerPattern(), c.dispatched[|b.dispatched|..])
              <==> m in c.dispatched[|b.dispatched|..] && Matches(PeerPattern(), m.topic)
    {
      SelectedMembers(PeerPattern(), c.dispatched[|b.dispatched|..], m);
    }
    PeerTopicReachesPeer(peer);
  }

  lemma NoOperation(b: Bus, handlers: Handlers)
    ensures OperateAll(b, [], handlers) == b
  {
  }

  /** Attach, one beacon, one drain: the check has been called with the beacon exactly if its topic is a peer's. */
  lemma AttachThenBeacon(b: Bus, m: Message, handlers: Handlers, limit: nat, peer: string)
    requires CallsKnown(b) && b.queue == [] && HasRoom(b) && limit > 0 && m.topic == PeerTopic(peer)
    ensures var attached := DoEffect(b, Subscribe(Subscription(PeerPattern())));
            var c := Drained(DoPublish(attached, m), limit, handlers);
            m in ReceivedBy(c.calls, |b.subscriptions|) <==> '.' !in peer
  {
    hide Drained, ReceivedBy, PeerTopic, PeerPattern, CallsKnown;
    var attached := DoEffect(b, Subscribe(Subscription(PeerPattern())));
    var ops := [Do(Publish(m)), DrainUpTo(limit)];
    assert ops[1..] == [DrainUpTo(limit)] && ops[1..][1..] == [];
    var c := Drained(DoPublish(attached, m), limit, handlers);
    assert OperateAll(attached, ops, handlers)
        == OperateAll(Operate(attached, ops[0], handlers), ops[1..], handlers)
        == OperateAll(Operate(Operate(attached, ops[0], handlers), ops[1..][0], handlers), [], handlers) == c;
    AttachedCheckHears(b, ops, handlers, peer);
    FirstIsDispatched(DoPublish(attached, m), limit, handlers);
    assert c.dispatched[|b.dispatched|..][0] == m;
  }

  lemma FirstIsDispatched(b: Bus, limit: nat, handlers: Handlers)
    requires b.queue != [] && limit > 0
    ensures b.dispatched + [b.queue[0]] <= Drained(b, limit, handlers).dispatched
  {
    hide DrainLoop, DispatchHead;
    DispatchHeadGrows(b, handlers);
    DrainLoopStep(b, limit, handlers);
    DrainLoopGrows(DispatchHead(b, handlers), limit - 1, handlers);
  }

  // ----- From the loop to the heartbeat check -----

  /**
   The heartbeat check is number `check` of the run: its service calls are the history's ticks,
   one per round, taken at the clock reading the loop polls it with.
   */
  ghost predicate Interleaves(run: S.Run, check: nat, h: seq<Event>, ticks: seq<nat>) {
    && check < |run.initial| && S.Legal(run) && |ticks| == |run.rounds|
    && (forall i :: 0 <= i < |ticks| ==> ticks[i] < |h| && h[ticks[i]] == Tick(run.rounds[i].polls[check]))
    && (forall i :: 0 <= i < |ticks| - 1 ==> Consecutive(h, ticks[i], ticks[i + 1]))
  }

  lemma {:induction false} TicksIncrease(run: S.Run, check: nat, h: seq<Event>, ticks: seq<nat>, a: nat, b: nat)
    requires Interleaves(run, check, h, ticks) && a <= b < |ticks|
    ensures ticks[a] <= ticks[b]
    decreases b
  {
    if a < b {
      TicksIncrease(run, check, h, ticks, a, b - 1);
      assert Consecutive(h, ticks[b - 1], ticks[b - 1 + 1]);
    }
  }

  lemma LastHeardStays(c: Setup, h: seq<Event>, p: string, r: real, a: nat, n: nat)
    requires p in c.created && a <= n <= |h|
    requires LastHeard(c, h, p, a, r) && LastHeard(c, h, p, |h|, r)
    ensures LastHeard(c, h, p, n, r)
  {
  }

  /** The first round after `a` whose poll is past the deadline. */
  lemma {:induction false} FirstPast(run: S.Run, check: nat, deadline: real, a: nat, last: nat) returns (b: nat)
    requires S.Legal(run) && check < |run.initial| && a < last < |run.rounds|
    requires run.rounds[last].polls[check] > deadline
    ensures a < b <= last && run.rounds[b].polls[check] > deadline
    ensures forall e :: a < e < b ==> run.rounds[e].polls[check] <= deadline
    decreases last
  {
    if last > a + 1 && run.rounds[last - 1].polls[check] > deadline {
      b := FirstPast(run, check, deadline, a, last - 1);
    } else {
      b := last;
      PollsIncrease(run, check, a, last - 1);
    }
  }

  lemma {:induction false} PollsIncrease(run: S.Run, check: nat, a: nat, b: nat)
    requires S.Legal(run) && check < |run.initial| && a <= b < |run.rounds|
    ensures forall e :: a <= e <= b ==> run.rounds[e].polls[check] <= run.rounds[b].polls[check]
    decreases b
  {
    if a < b {
      PollsIncrease(run, check, a, b - 1);
      S.PollGap(run, b - 1, check);
    }
  }

  /**
   End-to-end detection: a peer last heard at r, polled in round a no later than r + timeout, and
   silent for good, gets exactly one report after round a if the loop keeps running past the
   timeout: a FAULT, strictly after r + timeout and no later than r + timeout + loop period +
   twice a round's work.
   */
  lemma DetectionLatency(c: Setup, run: S.Run, check: nat, h: seq<Event>, ticks: seq<nat>, p: string, r: real, a: nat)
      returns (b: nat)
    requires OwnSubject(c, p) && ClockOrdered(c, h) && p in c.created
    requires Interleaves(run, check, h, ticks) && a + 1 < |ticks|
    requires LastHeard(c, h, p, ticks[a], r) && LastHeard(c, h, p, |h|, r)
    requires h[ticks[a]].at <= r + c.timeout < h[ticks[|ticks| - 1]].at
    ensures a < b < |ticks|
    ensures r + c.timeout < h[ticks[b]].at <= r + c.timeout + run.loopPeriod + 2.0 * run.work
    ensures forall e :: a < e < |ticks| ==> ReportsLoss(c, h, p, ticks[e], e == b)
  {
    hide ReportsLoss, LastHeard, ClockOrdered, S.Legal;
    b := FirstPast(run, check, r + c.timeout, a, |ticks| - 1);
    S.PollGap(run, b - 1, check);
    assert h[ticks[b - 1]].at <= r + c.timeout;
    forall e | a < e < |ticks|
      ensures ReportsLoss(c, h, p, ticks[e], e == b)
    {
      RoundReports(c, run, check, h, ticks, p, r, a, e);
      if e > b {
        PollsIncrease(run, check, b, e - 1);
      }
    }
  }

  lemma RoundReports(c: Setup, run: S.Run, check: nat, h: seq<Event>, ticks: seq<nat>, p: string, r: real,
                     a: nat, e: nat)
    requires OwnSubject(c, p) && ClockOrdered(c, h) && p in c.created
    requires Interleaves(run, check, h, ticks) && a < e < |ticks|
    requires LastHeard(c, h, p, ticks[a], r) && LastHeard(c, h, p, |h|, r)
    ensures ReportsLoss(c, h, p, ticks[e], h[ticks[e - 1]].at <= r + c.timeout < h[ticks[e]].at)
  {
    TicksIncrease(run, check, h, ticks, a, e - 1);
    TicksIncrease(run, check, h, ticks, e - 1, e);
    LastHeardStays(c, h, p, r, ticks[a], ticks[e - 1]);
    LastHeardStays(c, h, p, r, ticks[a], ticks[e]);
    assert Consecutive(h, ticks[e - 1], ticks[e - 1 + 1]);
    SilenceReportedOnce(c, h, p, r, ticks[e - 1], ticks[e]);
  }
}
