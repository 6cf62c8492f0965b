/**
 The heartbeat check as the object the service runs (src/health_monitor/checks/heartbeat.py):
 peer records updated in place by the bus handler and by the tick.
 */
module Heartbeat {
  import opened Outcomes
  import opened HealthTypes
  import opened IntervalTimers
  import opened Topics
  import opened MessageBuses
  import opened PeriodicChecks
  import opened LivenessSpec
  import History = LivenessHistory

  const SELF_NAME := "health-monitor"

  class PeerRecord {
    const name: string
    const timer: IntervalTimer
    var live: bool
    var sequence: int
    var losses: nat
    var refreshes: nat

    constructor (name: string, timer: IntervalTimer)
      ensures this.name == name && this.timer == timer
      ensures live && sequence == -1 && losses == 0 && refreshes == 0
    {
      this.name, this.timer := name, timer;
      live, sequence, losses, refreshes := true, -1, 0, 0;
    }

    ghost function View(): Peer
      reads this, timer
    {
      Peer(timer.View(), live, sequence, losses, refreshes)
    }

    method Accept(received: int, reading: real)
      modifies this, timer
      ensures View() == Refreshed(old(View()), received, reading)
    {
      sequence := received;
      refreshes := refreshes + 1;
      timer.Refresh(reading);
    }
  }

  class HeartbeatCheck {
    const base: PeriodicCheck
    const required: int
    const order: seq<string>
    const peers: map<string, PeerRecord>
    var sequence: nat

    /** What construction fixes for good; none of it is state. */
    ghost predicate Valid() {
      && base.checkId == HEARTBEAT_ID
      && base.timer.Legal()
      && (forall i, j :: 0 <= i < j < |order| ==> order[i] != order[j])
      && (forall n :: n in order <==> n in peers)
      && Separate(peers, base.timer)
      && (forall n :: n in peers ==> peers[n].timer.Legal() && peers[n].timer.expiry.Some?)
    }

    /** Every record is its own object with its own timer. */
    static ghost predicate Separate(records: map<string, PeerRecord>, emitTimer: IntervalTimer) {
      && (forall n :: n in records ==> records[n].name == n && records[n].timer != emitTimer)
      && (forall n, m :: n in records && m in records && n != m ==>
                           records[n] != records[m] && records[n].timer != records[m].timer)
    }

    ghost function Peers(): (seen: map<string, Peer>)
      reads peers.Values, set r: PeerRecord | r in peers.Values :: r.timer
      ensures seen.Keys == peers.Keys
    {
      map n | n in peers :: peers[n].View()
    }

    ghost function View(): Liveness
      reads this, base, peers.Values, set r: PeerRecord | r in peers.Values :: r.timer
    {
      Liveness(order, Peers(), required, base.lastPublished)
    }

    /** Records are separate objects, so touching one leaves every other peer as it was. */
    twostate lemma OnlyOneRecordChanged(name: string)
      requires Valid() && name in peers
      requires forall n :: n in peers && n != name ==> unchanged(peers[n]) && unchanged(peers[n].timer)
      ensures Peers() == old(Peers())[name := peers[name].View()]
    {
      forall n | n in peers && n != name
        ensures peers[n].View() == old(peers[n].View())
      {
        assert unchanged(peers[n]) && unchanged(peers[n].timer);
      }
    }

    /** A dictionary's keys after storing under each name in turn: in order of first appearance. */
    static function KeysInOrder(names: seq<string>): (keys: seq<string>)
      ensures forall a, b :: 0 <= a < b < |keys| ==> keys[a] != keys[b]
      ensures forall n :: n in keys <==> n in names
    {
      if names == [] then []
      else
        var front, last := KeysInOrder(names[..|names| - 1]), names[|names| - 1];
        assert names == names[..|names| - 1] + [last];
        if last in front then front else front + [last]
    }

    /** Each record is as created for the last list entry of its name. */
    static ghost predicate AsCreated(records: map<string, PeerRecord>, names: seq<string>, emitPeriod: real,
                                     timeout: real, clock: nat -> real)
      reads records.Values, set r: PeerRecord | r in records.Values :: r.timer
    {
      forall n :: n in records ==>
                    n in names && records[n].View() == NewPeer(emitPeriod, timeout, clock(LastIndex(names, n)))
    }

    static function LastIndex(names: seq<string>, name: string): (i: nat)
      requires name in names
      ensures i < |names| && names[i] == name && name !in names[i + 1..]
    {
      if names[|names| - 1] == name then |names| - 1
      else
        assert name in names[..|names| - 1];
        var i := LastIndex(names[..|names| - 1], name);
        assert names[i + 1..] == names[..|names| - 1][i + 1..] + [names[|names| - 1]];
        i
    }

    static lemma LastIndexStep(names: seq<string>, i: nat)
      requires i < |names|
      ensures forall n :: n in names[..i + 1] <==> n in names[..i] || n == names[i]
      ensures forall n :: n in names[..i + 1] ==>
                            LastIndex(names[..i + 1], n) == if n == names[i] then i else LastIndex(names[..i], n)
    {
      var front, longer := names[..i], names[..i + 1];
      assert longer[..i] == front && longer == front + [names[i]];
      forall n | n in longer
        ensures LastIndex(longer, n) == if n == names[i] then i else LastIndex(front, n)
      {
        assert longer[|longer| - 1] == names[i];
      }
    }

    /**
     One record per distinct name; for a name listed twice the later record replaces the
     earlier one in place. `clock` gives the reading taken for each list entry.
     */
    static method BuildRecords(names: seq<string>, emitPeriod: real, timeout: real,
                               emitTimer: IntervalTimer, clock: nat -> real)
        returns (keys: seq<string>, records: map<string, PeerRecord>)
      requires emitPeriod > 0.0 && timeout > 0.0
      ensures keys == KeysInOrder(names) && forall n :: n in keys <==> n in records
      ensures Separate(records, emitTimer)
      ensures forall n :: n in records ==> fresh(records[n]) && fresh(records[n].timer)
      ensures AsCreated(records, names, emitPeriod, timeout, clock)
    {
      hide KeysInOrder, Separate, AsCreated, NewPeer;
      keys, records := [], map[];
      NoKeys();
      NothingCreated(names, emitPeriod, timeout, clock);
      NothingToSeparate(emitTimer);
      for i := 0 to |names|
        invariant keys == KeysInOrder(names[..i]) && forall n :: n in keys <==> n in records
        invariant Separate(records, emitTimer)
        invariant forall n :: n in records ==> fresh(records[n]) && fresh(records[n].timer)
        invariant AsCreated(records, names[..i], emitPeriod, timeout, clock)
      {
        KeysStep(names, i);
        var record := NewRecord(names[i], emitPeriod, timeout, clock(i));
        if names[i] !in records {
          keys := keys + [names[i]];
        }
        SeparateMore(records, emitTimer, record);
        CreatedMore(records, names, i, emitPeriod, timeout, clock, record);
        records := records[names[i] := record];
      }
      assert names[..|names|] == names;
    }

    static lemma NothingCreated(names: seq<string>, emitPeriod: real, timeout: real, clock: nat -> real)
      ensures AsCreated(map[], names[..0], emitPeriod, timeout, clock)
    {
    }

    static lemma CreatedMore(records: map<string, PeerRecord>, names: seq<string>, i: nat, emitPeriod: real,
                             timeout: real, clock: nat -> real, record: PeerRecord)
      requires i < |names| && AsCreated(records, names[..i], emitPeriod, timeout, clock)
      requires record.name == names[i] && record.View() == NewPeer(emitPeriod, timeout, clock(i))
      ensures AsCreated(records[names[i] := record], names[..i + 1], emitPeriod, timeout, clock)
    {
      hide LastIndex, NewPeer;
      LastIndexStep(names, i);
    }

    static lemma NothingToSeparate(emitTimer: IntervalTimer)
      ensures Separate(map[], emitTimer)
    {
    }

    static lemma SeparateMore(records: map<string, PeerRecord>, emitTimer: IntervalTimer, record: PeerRecord)
      requires Separate(records, emitTimer) && record.timer != emitTimer
      requires forall n :: n in records ==> records[n] != record && records[n].timer != record.timer
      ensures Separate(records[record.name := record], emitTimer)
    {
    }

    static lemma NoKeys()
      ensures KeysInOrder([]) == []
    {
    }

    static lemma KeysStep(names: seq<string>, i: nat)
      requires i < |names|
      ensures var before := KeysInOrder(names[..i]);
              KeysInOrder(names[..i + 1]) == if names[i] in before then before else before + [names[i]]
    {
      assert names[..i + 1][..i] == names[..i];
    }

    /** Where a name is first listed. */
    static function FirstIndex(names: seq<string>, name: string): (i: nat)
      requires name in names
      ensures i < |names| && names[i] == name && name !in names[..i]
    {
      if names[0] == name then 0
      else
        assert name in names[1..];
        var i := FirstIndex(names[1..], name);
        assert names[..i + 1] == [names[0]] + names[1..][..i];
        i + 1
    }

    /** The dictionary's order is that of the first appearances. */
    static lemma {:induction false} KeysFollowFirstAppearance(names: seq<string>)
      ensures forall a, b :: 0 <= a < b < |KeysInOrder(names)| ==>
                               FirstIndex(names, KeysInOrder(names)[a]) < FirstIndex(names, KeysInOrder(names)[b])
    {
      if names != [] {
        var front, keys := names[..|names| - 1], KeysInOrder(names);
        KeysFollowFirstAppearance(front);
        forall n | n in front
          ensures FirstIndex(names, n) == FirstIndex(front, n)
        {
          FirstIndexKept(names, n);
        }
        forall a, b | 0 <= a < b < |keys|
          ensures FirstIndex(names, keys[a]) < FirstIndex(names, keys[b])
        {
          assert a < |KeysInOrder(front)| && keys[a] == KeysInOrder(front)[a] && keys[a] in front;
          if b < |KeysInOrder(front)| {
            assert keys[b] == KeysInOrder(front)[b] && keys[b] in front;
          } else {
            assert keys[b] !in front;
          }
        }
      }
    }

    static lemma FirstIndexKept(names: seq<string>, name: string)
      requires names != [] && name in names[..|names| - 1]
      ensures FirstIndex(names, name) == FirstIndex(names[..|names| - 1], name)
    {
      var j := FirstIndex(names[..|names| - 1], name);
      assert names[..j] == names[..|names| - 1][..j];
      FirstIndexUnique(names, name, j);
    }

    static lemma {:induction false} FirstIndexUnique(names: seq<string>, name: string, i: nat)
      requires i < |names| && names[i] == name && name !in names[..i]
      ensures FirstIndex(names, name) == i
    {
      assert i > 0 ==> names[..i][0] == names[0];
      if i > 0 {
        assert names[1..][..i - 1] == names[..i][1..];
        FirstIndexUnique(names[1..], name, i - 1);
      }
    }

    static method NewRecord(name: string, emitPeriod: real, timeout: real, reading: real) returns (record: PeerRecord)
      requires emitPeriod > 0.0 && timeout > 0.0
      ensures fresh(record) && fresh(record.timer)
      ensures record.name == name && record.View() == NewPeer(emitPeriod, timeout, reading)
    {
      var timer := new IntervalTimer(emitPeriod, Some(timeout), reading, false);
      record := new PeerRecord(name, timer);
    }

    constructor (names: seq<string>, emitPeriod: real, timeout: real, quorum: int, bus: MessageBus,
                 now: real, clock: nat -> real)
      requires emitPeriod > 0.0 && timeout > 0.0
      ensures Valid()
      ensures order == KeysInOrder(names)
      ensures AsCreated(peers, names, emitPeriod, timeout, clock)
      ensures base.bus == bus && base.lastPublished == map[]
      ensures base.timer.View() == NewTimer(emitPeriod, None, now, true)
      ensures required == quorum && sequence == 0
    {
      hide Separate, KeysInOrder, AsCreated;
      var emitTimer := new IntervalTimer(emitPeriod, None, now, true);
      var check := new PeriodicCheck(HEARTBEAT_ID, bus, emitTimer);
      var keys, records := BuildRecords(names, emitPeriod, timeout, emitTimer, clock);
      RecordsAreLegal(records, names, emitPeriod, timeout, clock);
      base, required, sequence := check, quorum, 0;
      order, peers := keys, records;
    }

    static lemma RecordsAreLegal(records: map<string, PeerRecord>, names: seq<string>, emitPeriod: real,
                                 timeout: real, clock: nat -> real)
      requires emitPeriod > 0.0 && timeout > 0.0 && AsCreated(records, names, emitPeriod, timeout, clock)
      ensures forall n :: n in records ==> records[n].timer.Legal() && records[n].timer.expiry.Some?
    {
      forall n | n in records
        ensures records[n].timer.Legal() && records[n].timer.expiry.Some?
      {
        var view := records[n].View();
        assert view.timer.expiry == Some(timeout) && view.timer.period == emitPeriod;
      }
    }

    /** A new check's state is the first state of every history: its peers' creation readings fix the rest. */
    lemma StartsInitial(names: seq<string>, emitPeriod: real, timeout: real, clock: nat -> real)
      requires Valid() && AsCreated(peers, names, emitPeriod, timeout, clock) && base.lastPublished == map[]
      ensures View() == History.Initial(History.Setup(
                order, map n | n in peers :: peers[n].timer.lastRefresh, emitPeriod, timeout, required))
    {
      hide Separate, LastIndex;
      forall n | n in peers
        ensures peers[n].View() == NewPeer(emitPeriod, timeout, peers[n].timer.lastRefresh)
      {
      }
    }

    method Attach(bus: MessageBus)
      modifies bus
      ensures bus.View() == DoEffect(old(bus.View()), Subscribe(Subscription(PeerPattern())))
    {
      bus.Subscribe(PeerPattern());
    }

    /** The bus handler. `reading` is the clock value read by the refresh. */
    method OnPeerHeartbeat(m: Message, reading: real)
      requires Valid()
      modifies peers.Values, set r: PeerRecord | r in peers.Values :: r.timer
      ensures View() == OnBeat(old(View()), LastSegment(m.topic),
                               if m.payload.Beacon? then m.payload.sequence else Missing, reading)
    {
      var name := LastSegment(m.topic);
      if name !in peers {
        return;
      }
      var record := peers[name];
      var field := if m.payload.Beacon? then m.payload.sequence else Missing;
      if field.NotAnInteger? {
        return;  // int(...) raises; the bus swallows it
      }
      var received := SequenceNumber(field);
      if received >= 0 && received <= record.sequence {
        return;
      }
      record.Accept(received, reading);
      OnlyOneRecordChanged(name);
    }

    /** Flip one record's liveness and report it if it changed. */
    method EvaluatePeer(record: PeerRecord, tick: TimerTick) returns (r: seq<CheckResult>)
      requires record.timer.Legal() && tick == record.timer.View().Poll(tick.now)
      modifies record
      ensures record.View() == Observed(old(record.View()), tick.now)
      ensures r == Transition(record.name, old(record.View()), tick.now)
    {
      var wasLive := record.live;
      record.live := !tick.expired;
      if record.live == wasLive {
        return [];
      }
      var silentFor := if tick.timeSinceRefresh.Some? then tick.timeSinceRefresh.value else 0.0;
      if record.live {
        return [CheckResult(HEARTBEAT_ID, Ok, record.name,
                            PeerMetrics(silentFor, record.losses, record.refreshes), tick.now)];
      }
      record.losses := record.losses + 1;
      r := [CheckResult(HEARTBEAT_ID, Fault, record.name,
                        PeerMetrics(silentFor, record.losses, record.refreshes), tick.now)];
    }

    method EvaluateQuorum(now: real) returns (r: seq<CheckResult>)
      requires Valid()
      ensures r == QuorumReport(View(), now)
    {
      var live := 0;
      for i := 0 to |order|
        invariant live == LiveCount(order[..i], View().peers)
      {
        assert order[..i + 1][..i] == order[..i];
        if peers[order[i]].live {
          live := live + 1;
        }
      }
      assert order[..|order|] == order;
      var state := if live >= required then Ok else Fault;
      if QUORUM_SUBJECT in base.lastPublished && base.lastPublished[QUORUM_SUBJECT] == state {
        return [];
      }
      r := [CheckResult(HEARTBEAT_ID, state, QUORUM_SUBJECT, QuorumMetrics(live, required, |order|), now)];
    }

    static function OwnBeacon(n: nat, now: real): Message {
      Message(PeerTopic(SELF_NAME), Beacon(Number(n)), HEARTBEAT_ID, now)
    }

    /** Emit our own beacon, with the next sequence number. */
    method Emit(now: real)
      modifies this, base.bus
      ensures sequence == old(sequence) + 1
      ensures base.bus.View() == DoPublish(old(base.bus.View()), OwnBeacon(sequence, now))
    {
      sequence := sequence + 1;
      base.bus.Publish(Message(PeerTopic(SELF_NAME), Beacon(Number(sequence)), HEARTBEAT_ID, now));
    }

    method EmitIfDue(tick: TimerTick)
      requires Valid() && tick == base.timer.View().Poll(tick.now)
      modifies this, base.bus, base.timer
      ensures Peers() == old(Peers())
      ensures base.timer.View() == old(base.timer.View()).Served(tick.now)
      ensures base.bus.View() == AfterEmission(old(base.bus.View()), tick.due, sequence, tick.now)
      ensures sequence == old(sequence) + if tick.due then 1 else 0
    {
      if tick.due {
        Emit(tick.now);
        base.timer.MarkServiced(tick.now);
      }
    }

    static function AfterEmission(b: Bus, due: bool, n: nat, now: real): Bus {
      if due then DoPublish(b, OwnBeacon(n, now)) else b
    }

    method EvaluatePeers(now: real) returns (results: seq<CheckResult>)
      requires Valid()
      modifies peers.Values
      ensures results == Transitions(order, old(Peers()), now)
      ensures Peers() == ObservedPeers(old(Peers()), now)
    {
      hide Observed, Transition, ObservedSome, ObservedPeers, Transitions, Separate, Peers, Valid;
      ghost var before := Peers();
      results := [];
      NoneObserved(before, order, now);
      for i := 0 to |order|
        invariant Peers() == ObservedSome(before, order[..i], now)
        invariant results == Transitions(order[..i], before, now)
      {
        ListedOnce(i);
        ObserveOneMore(before, order, i, now);
        var result := ObserveRecord(order[i], now);
        results := results + result;
      }
      assert order[..|order|] == order;
      AllListed();
      AllObserved(before, order, now);
    }

    lemma ListedOnce(i: nat)
      requires Valid() && i < |order|
      ensures order[i] in peers && order[i] !in order[..i]
    {
    }

    lemma AllListed()
      requires Valid()
      ensures forall n :: n in peers <==> n in order
    {
    }

    /** The body of the loop over peers: poll the record's timer, evaluate the record. */
    method ObserveRecord(name: string, now: real) returns (result: seq<CheckResult>)
      requires Valid() && name in peers
      modifies peers[name]
      ensures Peers() == old(Peers())[name := Observed(old(Peers())[name], now)]
      ensures result == Transition(name, old(Peers())[name], now)
    {
      var record := peers[name];
      var peerTick := record.timer.Poll(now);
      result := EvaluatePeer(record, peerTick);
      OnlyOneRecordChanged(name);
    }

    method OnTick(tick: TimerTick) returns (results: seq<CheckResult>)
      requires Valid() && tick == base.timer.View().Poll(tick.now)
      modifies this, base.bus, base.timer, peers.Values
      ensures base.timer.View() == old(base.timer.View()).Served(tick.now)
      ensures base.bus.View() == AfterEmission(old(base.bus.View()), tick.due, sequence, tick.now)
      ensures sequence == old(sequence) + if tick.due then 1 else 0
      ensures results == TickResults(old(View()), tick.now)
      ensures Peers() == ObservedPeers(old(Peers()), tick.now)
    {
      EmitIfDue(tick);
      results := EvaluatePeers(tick.now);
      var quorum := EvaluateQuorum(tick.now);
      results := results + quorum;
    }

    method Finish(tick: TimerTick, reported: seq<CheckResult>) returns (results: seq<CheckResult>)
      requires Valid()
      modifies base, base.bus, base.timer, base.stats
      ensures results == reported && Peers() == old(Peers())
      ensures base.lastPublished == LastStates(old(base.lastPublished), results)
      ensures base.timer.View() == old(base.timer.View())
      ensures base.bus.View() == PublishedAll(old(base.bus.View()), results, HEARTBEAT_ID)
      ensures base.stats.View() == old(base.stats.View()).AfterCall(results, tick.missedSlots)
    {
      results := base.Complete(tick, Returned(reported));
    }

    /** One whole service call, at one clock reading. */
    method Service(now: real) returns (results: seq<CheckResult>)
      requires Valid()
      modifies this, base, base.bus, base.timer, base.stats, peers.Values
      ensures results == TickResults(old(View()), now)
      ensures View() == LivenessSpec.OnTick(old(View()), now)
      ensures base.timer.View() == old(base.timer.View()).Served(now)
      ensures base.stats.View() ==
              old(base.stats.View()).AfterCall(results, old(base.timer.View()).Poll(now).missedSlots)
      ensures var due := old(base.timer.View()).Poll(now).due;
              && sequence == old(sequence) + (if due then 1 else 0)
              && base.bus.View() ==
                 PublishedAll(AfterEmission(old(base.bus.View()), due, sequence, now), results, HEARTBEAT_ID)
    {
      var tick := base.timer.Poll(now);
      var reported := OnTick(tick);
      results := Finish(tick, reported);
    }
  }
}
