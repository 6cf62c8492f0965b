/**
 Publisher, bus, control loop and heartbeat check together: a peer that publishes its beacons on
 time is never declared lost, provided the timeout covers the bus's waiting time in rounds.
 */
module SystemDelivery {
  import opened HealthTypes
  import opened IntervalTimers
  import opened Topics
  import opened MessageBuses
  import opened LivenessHistory
  import opened LivenessStreams
  import opened PeerDelivery
  import opened Detection

  /**
   One run of everything. `ops` are the bus's publishes, subscribes and drains, at the instants
   `stamps`; round i of the loop drains the bus at `drains[i]` and services the heartbeat check at
   event `ticks[i]` of the check's history. The check is subscription `subscriber` of the bus.
   */
  datatype System = System(
    run: S.Run,
    check: nat,
    initial: Bus,
    ops: seq<Operation>,
    stamps: seq<real>,
    drains: seq<nat>,
    limit: nat,
    handlers: Handlers,
    subscriber: nat,
    h: seq<Event>,
    ticks: seq<nat>)

  /** The bus's operations in time order, drained by the loop alone, once per round, before the check is polled. */
  ghost predicate LoopDrains(y: System) {
    && |y.stamps| == |y.ops| && |y.drains| == |y.run.rounds| && y.limit > 0
    && (forall a, b :: 0 <= a <= b < |y.stamps| ==> y.stamps[a] <= y.stamps[b])
    && (forall i, j :: 0 <= i < j < |y.drains| ==> y.drains[i] < y.drains[j])
    && (forall i :: 0 <= i < |y.drains| ==> y.drains[i] < |y.ops|)
    && (forall i :: 0 <= i < |y.drains| ==> DrainsIn(y, i))
    && (forall op :: op in y.ops && op.DrainUpTo? ==> op.limit == y.limit)
  }

  ghost predicate DrainsIn(y: System, i: nat)
    requires |y.stamps| == |y.ops| && i < |y.drains| && i < |y.run.rounds| && y.drains[i] < |y.ops|
  {
    && y.ops[y.drains[i]] == DrainUpTo(y.limit)
    && y.check < |y.run.rounds[i].polls|
    && y.run.rounds[i].wake <= y.stamps[y.drains[i]] <= y.run.rounds[i].polls[y.check]
  }

  /** The bus once round i has drained it. */
  ghost function AfterDrain(y: System, i: nat): Bus
    requires i < |y.drains| && y.drains[i] < |y.ops|
  {
    OperateAll(y.initial, y.ops[..y.drains[i] + 1], y.handlers)
  }

  /** The beat a beacon message makes of itself in the check's handler. */
  ghost predicate MakesBeat(m: Message, e: Event) {
    && e.Beat? && e.peer == LastSegment(m.topic)
    && e.field == if m.payload.Beacon? then m.payload.sequence else Missing
  }

  /** The check is subscribed from the start, and its beats are what it has been called with. */
  ghost predicate HearsItsCalls(y: System)
    requires LoopDrains(y) && |y.ticks| == |y.run.rounds|
  {
    && y.subscriber < |y.initial.subscriptions| && y.initial.subscriptions[y.subscriber].pattern == PeerPattern()
    && Sound(y.initial) && ReceivedBy(y.initial.calls, y.subscriber) == []
    && (forall i, m :: 0 <= i < |y.drains| && m in ReceivedBy(AfterDrain(y, i).calls, y.subscriber) ==>
                         HeardBefore(y, m, y.ticks[i]))
    && (forall n :: 0 <= n < |y.h| && y.h[n].Beat? ==> exists i :: CalledIn(y, n, i))
    && (forall n :: 0 <= n < |y.h| && y.h[n].Tick? ==> n in y.ticks)
  }

  ghost predicate HeardBefore(y: System, m: Message, n: nat) {
    exists e :: 0 <= e < n && e < |y.h| && MakesBeat(m, y.h[e])
  }

  /** Event n is a beat made by a call of round i's drain, read no earlier than the drain began. */
  ghost predicate CalledIn(y: System, n: nat, i: nat)
    requires LoopDrains(y) && n < |y.h|
  {
    && i < |y.drains| && DrainsIn(y, i) && y.h[n].at >= y.stamps[y.drains[i]]
    && exists m :: m in ReceivedBy(AfterDrain(y, i).calls, y.subscriber) && MakesBeat(m, y.h[n])
  }

  // ----- The peer -----

  /** A peer that publishes beacon n at start + n * every; beacons from `first` on are to be relied on. */
  datatype Sender = Sender(name: string, start: real, every: real, jitter: real, first: nat, ahead: nat)

  function Due(q: Sender, n: int): real {
    q.start + Times(n, q.every)
  }

  /**
   What a beacon takes from its instant to the check: the jitter, `ahead` rounds, and the work before
   the poll of the round whose drain hands it over.
   */
  function Delay(y: System, q: Sender): real {
    q.jitter + y.run.work + Times(q.ahead, y.run.loopPeriod + y.run.work)
  }

  /** Operation o publishes the peer's beacon n, up to `jitter` after its instant. */
  ghost predicate SendsBeacon(y: System, q: Sender, o: nat, n: int) {
    && o < |y.ops| && o < |y.stamps| && y.ops[o].Do? && y.ops[o].effect.Publish?
    && y.ops[o].effect.message.topic == PeerTopic(q.name)
    && n >= 0 && y.ops[o].effect.message.payload == Beacon(Number(n))
    && Due(q, n) <= y.stamps[o] <= Due(q, n) + q.jitter
  }

  ghost predicate OnTopic(op: Operation, p: string) {
    op.Do? && op.effect.Publish? && op.effect.message.topic == PeerTopic(p)
  }

  ghost predicate SilentOn(handlers: Handlers, topic: string) {
    forall n: nat, i :: 0 <= i < |handlers(n)| && handlers(n)[i].Publish? ==> handlers(n)[i].message.topic != topic
  }

  /**
   The peer alone speaks on its topic and sends beacon n up to `jitter` after start + n * every. From
   number `first` on it sends all that are due by some drain of the run.
   */
  ghost predicate BeaconsSent(y: System, q: Sender)
    requires LoopDrains(y)
  {
    && SilentOn(y.handlers, PeerTopic(q.name))
    && (forall m :: m in y.initial.accepted ==> m.topic != PeerTopic(q.name))
    && (forall o :: 0 <= o < |y.ops| && OnTopic(y.ops[o], q.name) ==> exists n :: SendsBeacon(y, q, o, n))
    && (forall i, n :: 0 <= i < |y.drains| && n >= q.first && Due(q, n) + q.jitter < y.stamps[y.drains[i]] ==>
                         exists o: nat :: SendsBeacon(y, q, o, n))
  }

  /** None of the beacons from `first` on finds a full queue, or more than `ahead` whole drains before it. */
  ghost predicate Uncrowded(y: System, q: Sender) {
    forall o: nat, n :: SendsBeacon(y, q, o, n) && n >= q.first ==> ShortQueueAt(y, o, q.ahead)
  }

  ghost predicate ShortQueueAt(y: System, o: nat, ahead: nat)
    requires o < |y.ops|
  {
    var b := OperateAll(y.initial, y.ops[..o], y.handlers);
    HasRoom(b) && |b.queue| < (ahead + 1) * y.limit
  }

  // ----- Where accepted messages come from -----

  lemma {:induction false} EffectsSilent(b: Bus, es: seq<Effect>, topic: string)
    requires forall i :: 0 <= i < |es| && es[i].Publish? ==> es[i].message.topic != topic
    ensures forall m :: m in DoEffects(b, es).accepted && m.topic == topic ==> m in b.accepted
  {
    if es != [] {
      EffectsSilent(b, es[..|es| - 1], topic);
    }
  }

  lemma {:induction false} InvokeAllSilent(b: Bus, subscribers: seq<nat>, m: Message, handlers: Handlers, topic: string)
    requires SilentOn(handlers, topic)
    ensures forall x :: x in InvokeAll(b, subscribers, m, handlers).accepted && x.topic == topic ==> x in b.accepted
  {
    if subscribers != [] {
      var front, last := subscribers[..|subscribers| - 1], subscribers[|subscribers| - 1];
      InvokeAllSilent(b, front, m, handlers, topic);
      var c := InvokeAll(b, front, m, handlers);
      EffectsSilent(c.(calls := c.calls + [HandlerCall(last, m)]), handlers(|c.calls|), topic);
    }
  }

  lemma {:induction false} DrainSilent(b: Bus, limit: nat, handlers: Handlers, topic: string)
    requires SilentOn(handlers, topic)
    ensures forall m :: m in DrainLoop(b, limit, handlers).accepted && m.topic == topic ==> m in b.accepted
    decreases limit
  {
    if limit > 0 && b.queue != [] {
      var taken := b.(queue := b.queue[1..], dispatched := b.dispatched + [b.queue[0]]);
      InvokeAllSilent(taken, Matching(b.subscriptions, b.queue[0].topic), b.queue[0], handlers, topic);
      DrainSilent(DispatchHead(b, handlers), limit - 1, handlers, topic);
    }
  }

  ghost predicate PublishedBy(ops: seq<Operation>, m: Message) {
    exists o :: 0 <= o < |ops| && ops[o] == Do(Publish(m))
  }

  /** On a topic no handler speaks on, whatever is accepted was published by an operation. */
  lemma {:induction false} AcceptedFromOps(b: Bus, ops: seq<Operation>, handlers: Handlers, m: Message)
    requires SilentOn(handlers, m.topic) && m in OperateAll(b, ops, handlers).accepted
    ensures m in b.accepted || PublishedBy(ops, m)
    decreases |ops|
  {
    if ops != [] {
      var c := Operate(b, ops[0], handlers);
      AcceptedFromOps(c, ops[1..], handlers, m);
      if PublishedBy(ops[1..], m) {
        var o :| 0 <= o < |ops[1..]| && ops[1..][o] == Do(Publish(m));
        assert ops[o + 1] == Do(Publish(m));
      } else {
        OneOperationAccepts(b, ops[0], handlers, m);
      }
    }
  }

  lemma OneOperationAccepts(b: Bus, op: Operation, handlers: Handlers, m: Message)
    requires SilentOn(handlers, m.topic) && m in Operate(b, op, handlers).accepted
    ensures m in b.accepted || op == Do(Publish(m))
  {
    if op.DrainUpTo? {
      DrainSilent(b, op.limit, handlers, m.topic);
    }
  }

  lemma OneMoreOperation(b: Bus, ops: seq<Operation>, o: nat, handlers: Handlers)
    requires o < |ops|
    ensures OperateAll(b, ops[..o + 1], handlers) == Operate(OperateAll(b, ops[..o], handlers), ops[o], handlers)
  {
    assert ops[..o + 1] == ops[..o] + [ops[o]];
    OperateConcat(b, ops[..o], [ops[o]], handlers);
    assert [ops[o]][1..] == [];
  }

  // ----- Every beat is a beacon sent before -----

  /** What the check is called with is on its topic and was accepted by the bus. */
  lemma CallWasAccepted(y: System, i: nat, m: Message)
    requires LoopDrains(y) && |y.ticks| == |y.run.rounds| && HearsItsCalls(y)
    requires i < |y.drains| && m in ReceivedBy(AfterDrain(y, i).calls, y.subscriber)
    ensures Matches(PeerPattern(), m.topic) && m in AfterDrain(y, i).accepted
  {
    hide OperateAll, Matches, PeerTopic, DrainsIn, HeardBefore, CalledIn, Selected, ReceivedBy;
    var ops, b := y.ops[..y.drains[i] + 1], AfterDrain(y, i);
    DeliveryIsSelection(y.initial, ops, y.handlers, y.subscriber);
    RunGrows(y.initial, ops, y.handlers);
    SelectedMembers(PeerPattern(), b.dispatched[|y.initial.dispatched|..], m);
    assert m in b.dispatched && m in b.dispatched + b.queue;
  }

  lemma CallsComeFromBeacons(y: System, q: Sender, i: nat, m: Message) returns (o: nat, n: int)
    requires LoopDrains(y) && |y.ticks| == |y.run.rounds| && HearsItsCalls(y) && BeaconsSent(y, q)
    requires i < |y.drains| && m in ReceivedBy(AfterDrain(y, i).calls, y.subscriber) && LastSegment(m.topic) == q.name
    ensures SendsBeacon(y, q, o, n) && y.ops[o].effect.message == m
    ensures y.stamps[o] <= y.stamps[y.drains[i]]
  {
    hide OperateAll, Matches, LastSegment, SendsBeacon, PeerTopic, HearsItsCalls, DrainsIn, ReceivedBy;
    CallWasAccepted(y, i, m);
    AcceptedTopicNamesPeer(m.topic);
    var ops := y.ops[..y.drains[i] + 1];
    AcceptedFromOps(y.initial, ops, y.handlers, m);
    o :| 0 <= o < |ops| && ops[o] == Do(Publish(m));
    assert OnTopic(y.ops[o], q.name);
    n :| SendsBeacon(y, q, o, n);
  }

  /** Every beat of the history is a beacon some drain handed over. */
  lemma BeatHasCall(y: System, e: nat) returns (i: nat, m: Message)
    requires LoopDrains(y) && |y.ticks| == |y.run.rounds| && HearsItsCalls(y) && e < |y.h| && y.h[e].Beat?
    ensures i < |y.drains| && y.h[e].at >= y.stamps[y.drains[i]]
    ensures m in ReceivedBy(AfterDrain(y, i).calls, y.subscriber) && MakesBeat(m, y.h[e])
  {
    hide DrainsIn, AfterDrain, ReceivedBy, HeardBefore, Sound, MakesBeat;
    i :| CalledIn(y, e, i);
    m :| m in ReceivedBy(AfterDrain(y, i).calls, y.subscriber) && MakesBeat(m, y.h[e]);
  }

  lemma BeatsAreSentBeacons(y: System, q: Sender)
    requires LoopDrains(y) && |y.ticks| == |y.run.rounds| && HearsItsCalls(y) && BeaconsSent(y, q)
    ensures OnlySentBeacons(y.h, q.name, q.start, q.every)
  {
    hide BeaconsSent, HearsItsCalls, LoopDrains, AfterDrain, Times;
    forall e | IsBeat(y.h, q.name, e)
      ensures BeatNumber(y.h, e) >= 0 && y.h[e].at >= q.start + Times(BeatNumber(y.h, e), q.every)
    {
      var i, m := BeatHasCall(y, e);
      var o, n := CallsComeFromBeacons(y, q, i, m);
    }
  }

  // ----- Every beacon is a beat soon after -----

  /** Waking times are at most a loop period plus a round's work apart. */
  lemma {:induction false} WakeSpread(run: S.Run, check: nat, a: nat, b: nat)
    requires S.Legal(run) && check < |run.initial| && a <= b < |run.rounds|
    ensures run.rounds[b].wake <= run.rounds[a].wake + Times(b - a, run.loopPeriod + run.work)
    decreases b
  {
    if a < b {
      WakeSpread(run, check, a, b - 1);
      S.NextRound(run, b - 1, check);
      assert S.Paced(run.rounds[b - 1], |run.initial|, run.work);
      TimesAdd(b - 1 - a, 1, run.loopPeriod + run.work);
    }
  }

  /** Marked drains within a stretch of operations are among those it counts. */
  lemma {:induction false} CountsMarkedDrains(ops: seq<Operation>, lo: nat, hi: nat, marks: seq<nat>)
    requires lo <= hi <= |ops|
    requires forall a, b :: 0 <= a < b < |marks| ==> marks[a] < marks[b]
    requires forall a :: 0 <= a < |marks| ==> lo <= marks[a] < hi && ops[marks[a]].DrainUpTo?
    ensures Drains(ops[lo..hi]) >= |marks|
    decreases hi - lo
  {
    if lo < hi {
      assert ops[lo..hi][0] == ops[lo] && ops[lo..hi][1..] == ops[lo + 1..hi];
      if marks != [] && marks[0] == lo {
        CountsMarkedDrains(ops, lo + 1, hi, marks[1..]);
      } else {
        CountsMarkedDrains(ops, lo + 1, hi, marks);
      }
    }
  }

  lemma OperationsInOrder(y: System, i: nat, o: nat)
    requires LoopDrains(y) && i < |y.drains| && o < |y.ops| && y.stamps[o] < y.stamps[y.drains[i]]
    ensures o < y.drains[i]
  {
  }

  /** By the time a service call comes late enough, the loop has drained often enough since an operation. */
  lemma EnoughDrainsSince(y: System, i: nat, o: nat, ahead: nat)
    requires LoopDrains(y) && S.Legal(y.run) && y.check < |y.run.initial| && i < |y.drains|
    requires o < |y.ops| && !y.ops[o].DrainUpTo? && y.run.rounds[0].wake <= y.stamps[o]
    requires y.stamps[o] + y.run.work + Times(ahead, y.run.loopPeriod + y.run.work) < y.run.rounds[i].polls[y.check]
    ensures i >= ahead && o < y.drains[i - ahead]
  {
    var gap := y.run.loopPeriod + y.run.work;
    var from: nat := if i < ahead then 0 else i - ahead;
    assert DrainsIn(y, i) && DrainsIn(y, from);
    assert S.Paced(y.run.rounds[i], |y.run.initial|, y.run.work);
    assert y.run.rounds[i].polls[y.check] <= y.run.rounds[i].readings[y.check] <= y.run.rounds[i].end;
    WakeSpread(y.run, y.check, from, i);
    TimesGrows(i - from, ahead, gap);
    assert y.stamps[o] < y.run.rounds[from].wake;
    OperationsInOrder(y, from, o);
  }

  /** From a round `ahead` rounds after an operation, that many drains and one more have followed it. */
  lemma DrainsFollow(y: System, i: nat, o: nat, ahead: nat)
    requires LoopDrains(y) && i < |y.drains| && i >= ahead && o < y.drains[i - ahead]
    ensures o + 1 <= y.drains[i] + 1 <= |y.ops| && Drains(y.ops[o + 1..y.drains[i] + 1]) >= ahead + 1
  {
    var marks := y.drains[i - ahead..i + 1];
    forall a | 0 <= a < |marks|
      ensures o + 1 <= marks[a] < y.drains[i] + 1 && y.ops[marks[a]].DrainUpTo?
    {
      assert DrainsIn(y, i - ahead + a);
      assert y.drains[i - ahead] <= marks[a] <= y.drains[i];
    }
    CountsMarkedDrains(y.ops, o + 1, y.drains[i] + 1, marks);
  }

  /** A beacon sent long enough before a service call has been handed to the check by then. */
  lemma BeaconHeardInTime(y: System, q: Sender, i: nat, o: nat, n: int)
    requires LoopDrains(y) && |y.ticks| == |y.run.rounds| && HearsItsCalls(y) && Uncrowded(y, q)
    requires i < |y.drains| && SendsBeacon(y, q, o, n) && n >= q.first && '.' !in q.name
    requires i >= q.ahead && o < y.drains[i - q.ahead]
    ensures y.ops[o].effect.message in ReceivedBy(AfterDrain(y, i).calls, y.subscriber)
  {
    hide Operate, OperateAll, Matches, LastSegment, PeerTopic, SilentOn, ReceivedBy, Sound, DrainsIn, HeardBefore,
      CalledIn, Times;
    var end := y.drains[i] + 1;
    var before, m := OperateAll(y.initial, y.ops[..o], y.handlers), y.ops[o].effect.message;
    assert ShortQueueAt(y, o, q.ahead);
    DrainsFollow(y, i, o, q.ahead);
    var b, rest := OperateAll(y.initial, y.ops[..o + 1], y.handlers), y.ops[o + 1..end];
    OneMorePublish(y, o, m);
    RunGrows(y.initial, y.ops[..o + 1], y.handlers);
    GrowsKeepsSound(y.initial, b);
    assert y.ops[..o + 1] + rest == y.ops[..end];
    OperateConcat(y.initial, y.ops[..o + 1], rest, y.handlers);
    DrainsOutpace(Drains(rest), q.ahead, y.limit, |before.queue|);
    var seen := BeaconReachesCheck(b, rest, y.handlers, y.limit, |before.queue|, y.subscriber, q.name);
  }

  lemma DrainsOutpace(drains: nat, ahead: nat, limit: nat, place: nat)
    requires drains >= ahead + 1 && place < (ahead + 1) * limit
    ensures drains * limit > place
  {
    assert drains * limit >= (ahead + 1) * limit;
  }

  lemma OneMorePublish(y: System, o: nat, m: Message)
    requires o < |y.ops| && y.ops[o] == Do(Publish(m))
    requires HasRoom(OperateAll(y.initial, y.ops[..o], y.handlers))
    ensures var before := OperateAll(y.initial, y.ops[..o], y.handlers);
            OperateAll(y.initial, y.ops[..o + 1], y.handlers).queue == before.queue + [m]
  {
    OneMoreOperation(y.initial, y.ops, o, y.handlers);
  }

  /** Strictly more than Delay: a beacon published at the very instant of a drain may come after it. */
  lemma BeaconsDelivered(y: System, q: Sender, delay: real)
    requires Interleaves(y.run, y.check, y.h, y.ticks) && LoopDrains(y) && HearsItsCalls(y)
    requires delay > Delay(y, q)
    requires BeaconsSent(y, q) && Uncrowded(y, q) && '.' !in q.name && q.every > 0.0 && q.jitter >= 0.0
    requires |y.run.rounds| > 0 ==> y.run.rounds[0].wake <= Due(q, q.first)
    ensures DeliveredWithin(y.h, q.name, q.start, q.every, q.first, delay)
  {
    hide BeaconsSent, Uncrowded, Times, Delay;
    forall t, n | && 0 <= t < |y.h| && y.h[t].Tick? && q.first <= n
                  && q.start + Times(n, q.every) + delay <= y.h[t].at
      ensures Arrived(y.h, q.name, t, n)
    {
      var i :| 0 <= i < |y.ticks| && y.ticks[i] == t;
      BeaconArrives(y, q, i, n);
    }
  }

  /** A beacon due that long before service call i was published, with enough drains in between. */
  lemma BeaconPublished(y: System, q: Sender, i: nat, n: nat) returns (o: nat)
    requires S.Legal(y.run) && y.check < |y.run.initial| && LoopDrains(y)
    requires BeaconsSent(y, q) && q.every > 0.0 && q.jitter >= 0.0
    requires i < |y.drains| && y.run.rounds[0].wake <= Due(q, q.first)
    requires n >= q.first && Due(q, n) + Delay(y, q) < y.run.rounds[i].polls[y.check]
    ensures SendsBeacon(y, q, o, n) && i >= q.ahead && o < y.drains[i - q.ahead]
  {
    hide SilentOn, OnTopic, Times;
    var gap := y.run.loopPeriod + y.run.work;
    assert DrainsIn(y, i) && S.Paced(y.run.rounds[i], |y.run.initial|, y.run.work);
    assert y.run.rounds[i].polls[y.check] <= y.run.rounds[i].readings[y.check] <= y.run.rounds[i].end;
    TimesGrows(0, q.ahead, gap);
    TimesGrows(q.first, n, q.every);
    ZeroTimes(gap);
    o :| SendsBeacon(y, q, o, n);
    EnoughDrainsSince(y, i, o, q.ahead);
  }

  /** A message of the peer's own topic the check has been called with is among its beats. */
  lemma CallIsBeat(y: System, p: string, i: nat, m: Message, n: nat)
    requires LoopDrains(y) && |y.ticks| == |y.run.rounds| && HearsItsCalls(y) && i < |y.drains|
    requires m in ReceivedBy(AfterDrain(y, i).calls, y.subscriber)
    requires m.topic == PeerTopic(p) && '.' !in p && m.payload == Beacon(Number(n))
    ensures Arrived(y.h, p, y.ticks[i], n)
  {
    hide AfterDrain, ReceivedBy, DrainsIn, Sound, CalledIn, PeerTopic, LastSegment;
    assert HeardBefore(y, m, y.ticks[i]);
    var e :| 0 <= e < y.ticks[i] && e < |y.h| && MakesBeat(m, y.h[e]);
    PeerTopicReachesPeer(p);
    assert IsBeat(y.h, p, e) && BeatNumber(y.h, e) == n;
  }

  lemma BeaconArrives(y: System, q: Sender, i: nat, n: nat)
    requires Interleaves(y.run, y.check, y.h, y.ticks) && LoopDrains(y) && HearsItsCalls(y)
    requires BeaconsSent(y, q) && Uncrowded(y, q) && '.' !in q.name && q.every > 0.0 && q.jitter >= 0.0
    requires i < |y.ticks| && y.run.rounds[0].wake <= Due(q, q.first)
    requires n >= q.first && Due(q, n) + Delay(y, q) < y.h[y.ticks[i]].at
    ensures Arrived(y.h, q.name, y.ticks[i], n)
  {
    hide AfterDrain, ReceivedBy, DrainsIn, HearsItsCalls, BeaconsSent, Uncrowded, Due, Delay, S.Legal, Arrived;
    var o := BeaconPublished(y, q, i, n);
    BeaconHeardInTime(y, q, i, o, n);
    CallIsBeat(y, q.name, i, y.ops[o].effect.message, n);
  }

  /**
   From publisher to verdict: a dot-free peer that publishes a beacon every `every`, up to `jitter`
   late, and from number `first` on never into a full queue and never behind more than `ahead` whole
   drains' worth of messages, is never declared lost if the timeout exceeds the period, the jitter, a
   round's work and `ahead` rounds, each a loop period plus a round's work, and beacon `first` is due
   soon enough after the record's creation.
   */
  lemma PublishedBeaconsNeverLost(c: Setup, y: System, q: Sender)
    requires OwnSubject(c, q.name) && ClockOrdered(c, y.h) && q.name in c.created && '.' !in q.name
    requires Interleaves(y.run, y.check, y.h, y.ticks) && LoopDrains(y) && HearsItsCalls(y)
    requires BeaconsSent(y, q) && Uncrowded(y, q) && q.every > 0.0 && q.jitter >= 0.0
    requires |y.run.rounds| > 0 ==> y.run.rounds[0].wake <= Due(q, q.first)
    requires q.every + Delay(y, q) < c.timeout
    requires Due(q, q.first) + Delay(y, q) < c.created[q.name] + c.timeout
    ensures ResultsOf(ReportsAt(c, y.h, |y.h|), q.name) == []
  {
    hide HearsItsCalls, BeaconsSent, Uncrowded, LoopDrains, OnlySentBeacons, DeliveredWithin, ReportsAt;
    var gap := y.run.loopPeriod + y.run.work;
    var delay := Min(c.timeout - q.every, c.created[q.name] + c.timeout - Due(q, q.first));
    BeatsAreSentBeacons(y, q);
    BeaconsDelivered(y, q, delay);
    TimesGrows(0, q.ahead, gap);
    ZeroTimes(gap);
    TimelyBeaconsNeverLost(c, y.h, q.name, q.start, q.every, q.first, delay);
  }

  // ----- When the bus stays uncrowded -----

  ghost predicate QuietHandlers(handlers: Handlers) {
    forall n: nat, i :: 0 <= i < |handlers(n)| ==> handlers(n)[i].Subscribe?
  }

  /** How many messages have been published since the last drain. */
  function Pending(ops: seq<Operation>): nat {
    if ops == [] then 0
    else match ops[|ops| - 1]
      case DrainUpTo(_) => 0
      case Do(Publish(_)) => Pending(ops[..|ops| - 1]) + 1
      case Do(Subscribe(_)) => Pending(ops[..|ops| - 1])
  }

  /** Handlers only listen, and what is published between two drains fits one drain and the queue. */
  ghost predicate ShortBursts(y: System, most: nat) {
    && QuietHandlers(y.handlers) && y.initial.queue == []
    && most <= y.limit && (y.initial.depth > 0 ==> most <= y.initial.depth)
    && forall o :: 0 <= o <= |y.ops| ==> Pending(y.ops[..o]) <= most
  }

  /** The same queue limit, queue and drop count. */
  ghost predicate SameQueue(b: Bus, c: Bus) {
    c.depth == b.depth && c.queue == b.queue && c.dropped == b.dropped
  }

  lemma {:induction false} SubscribingKeepsQueue(b: Bus, es: seq<Effect>)
    requires forall i :: 0 <= i < |es| ==> es[i].Subscribe?
    ensures SameQueue(b, DoEffects(b, es))
  {
    if es != [] {
      SubscribingKeepsQueue(b, es[..|es| - 1]);
    }
  }

  lemma {:induction false} ListeningKeepsQueue(b: Bus, subscribers: seq<nat>, m: Message, handlers: Handlers)
    requires QuietHandlers(handlers)
    ensures SameQueue(b, InvokeAll(b, subscribers, m, handlers))
  {
    if subscribers != [] {
      var front, last := subscribers[..|subscribers| - 1], subscribers[|subscribers| - 1];
      ListeningKeepsQueue(b, front, m, handlers);
      var c := InvokeAll(b, front, m, handlers);
      SubscribingKeepsQueue(c.(calls := c.calls + [HandlerCall(last, m)]), handlers(|c.calls|));
    }
  }

  /** With handlers that only listen, a drain whose limit covers the queue empties it. */
  lemma {:induction false} QuietDrainEmpties(b: Bus, limit: nat, handlers: Handlers)
    requires QuietHandlers(handlers) && |b.queue| <= limit
    ensures SameQueue(b.(queue := []), DrainLoop(b, limit, handlers))
    decreases limit
  {
    if b.queue != [] {
      var taken := b.(queue := b.queue[1..], dispatched := b.dispatched + [b.queue[0]]);
      ListeningKeepsQueue(taken, Matching(b.subscriptions, b.queue[0].topic), b.queue[0], handlers);
      QuietDrainEmpties(DispatchHead(b, handlers), limit - 1, handlers);
    }
  }

  /** Then the queue holds exactly what was published since the last drain, and nothing is ever dropped. */
  lemma {:induction false} QueueHoldsPending(y: System, most: nat, o: nat)
    requires LoopDrains(y) && ShortBursts(y, most) && o <= |y.ops|
    ensures var b := OperateAll(y.initial, y.ops[..o], y.handlers);
            && b.depth == y.initial.depth && b.dropped == y.initial.dropped
            && |b.queue| == Pending(y.ops[..o])
  {
    hide Operate, DrainsIn;
    if o > 0 {
      QueueHoldsPending(y, most, o - 1);
      OneMoreOperation(y.initial, y.ops, o - 1, y.handlers);
      assert y.ops[..o][..o - 1] == y.ops[..o - 1] && y.ops[o - 1] in y.ops;
      OneOperationKeepsCount(OperateAll(y.initial, y.ops[..o - 1], y.handlers), y.ops[o - 1], y.handlers, most);
    }
  }

  lemma OneOperationKeepsCount(b: Bus, op: Operation, handlers: Handlers, most: nat)
    requires QuietHandlers(handlers) && |b.queue| <= most && (b.depth > 0 ==> most <= b.depth)
    requires op.DrainUpTo? ==> most <= op.limit
    requires op.Do? && op.effect.Publish? ==> |b.queue| < most
    ensures var c := Operate(b, op, handlers);
            && c.depth == b.depth && c.dropped == b.dropped
            && |c.queue| == if op.DrainUpTo? then 0 else |b.queue| + if op.effect.Publish? then 1 else 0
  {
    if op.DrainUpTo? {
      QuietDrainEmpties(b, op.limit, handlers);
    }
  }

  /** Short bursts leave room for every beacon, with no whole drain before it. */
  lemma ShortBurstsUncrowded(y: System, q: Sender, most: nat)
    requires LoopDrains(y) && ShortBursts(y, most)
    ensures Uncrowded(y, q.(ahead := 0))
  {
    hide OperateAll, PeerTopic, DrainsIn;
    var r := q.(ahead := 0);
    forall o: nat, n | SendsBeacon(y, r, o, n)
      ensures ShortQueueAt(y, o, r.ahead)
    {
      QueueHoldsPending(y, most, o);
      assert y.ops[..o + 1][..o] == y.ops[..o] && Pending(y.ops[..o + 1]) <= most;
    }
  }

  /**
   When handlers only listen and bursts fit one drain and the queue, nothing is ever dropped, and a
   dot-free peer is never declared lost if the timeout exceeds the period, the jitter and one round's
   work: the drain before the poll hands over all that was published before the round.
   */
  lemma QuietBusNeverLoses(c: Setup, y: System, q: Sender, most: nat)
    requires OwnSubject(c, q.name) && ClockOrdered(c, y.h) && q.name in c.created && '.' !in q.name
    requires Interleaves(y.run, y.check, y.h, y.ticks) && LoopDrains(y) && HearsItsCalls(y)
    requires BeaconsSent(y, q) && ShortBursts(y, most) && q.every > 0.0 && q.jitter >= 0.0
    requires |y.run.rounds| > 0 ==> y.run.rounds[0].wake <= Due(q, q.first)
    requires q.every + q.jitter + y.run.work < c.timeout
    requires Due(q, q.first) + q.jitter + y.run.work < c.created[q.name] + c.timeout
    ensures ResultsOf(ReportsAt(c, y.h, |y.h|), q.name) == []
    ensures OperateAll(y.initial, y.ops, y.handlers).dropped == y.initial.dropped
  {
    hide HearsItsCalls, LoopDrains, Uncrowded, ShortBursts, ReportsAt, ResultsOf, OperateAll;
    var r := q.(ahead := 0);
    ZeroTimes(y.run.loopPeriod + y.run.work);
    ShortBurstsUncrowded(y, q, most);
    SameBeacons(y, q, r);
    PublishedBeaconsNeverLost(c, y, r);
    QueueHoldsPending(y, most, |y.ops|);
    assert y.ops[..|y.ops|] == y.ops;
  }

  lemma SameBeacons(y: System, q: Sender, r: Sender)
    requires LoopDrains(y) && BeaconsSent(y, q) && r == q.(ahead := r.ahead)
    ensures BeaconsSent(y, r)
  {
    hide PeerTopic, SilentOn, Times, DrainsIn;
    assert forall n :: Due(q, n) == Due(r, n);
    assert forall o: nat, n :: SendsBeacon(y, q, o, n) ==> SendsBeacon(y, r, o, n);
  }
}
