/**
 Our own beacons, from the emission timer to a peer that runs the same check: numbered without a gap,
 one for each due service call, and every one of them accepted.
 */
module Emission {
  import opened IntervalTimers
  import opened Topics
  import opened MessageBuses
  import opened LivenessHistory
  import opened Heartbeat

  /** The emission part of a list of service calls: the bus, the timer and the last number used. */
  datatype Emitter = Emitter(bus: Bus, timer: Timer, last: nat)

  function EmitAt(e: Emitter, now: real): Emitter {
    var due := e.timer.Due(now);
    var next := e.last + if due then 1 else 0;
    Emitter(HeartbeatCheck.AfterEmission(e.bus, due, next, now), e.timer.Served(now), next)
  }

  function EmitAll(e: Emitter, polls: seq<real>): Emitter {
    if polls == [] then e else EmitAt(EmitAll(e, polls[..|polls| - 1]), polls[|polls| - 1])
  }

  /** Beacons numbered upwards from `first`, on our topic, each at one of the polls. */
  ghost predicate Numbered(ms: seq<Message>, first: nat, polls: seq<real>) {
    forall i :: 0 <= i < |ms| ==>
                  && ms[i].payload == Beacon(Number(first + i)) && ms[i].topic == PeerTopic("health-monitor")
                  && ms[i].source == "heartbeat" && ms[i].at in polls
  }

  ghost predicate RoomFor(b: Bus, messages: nat) {
    b.depth > 0 ==> |b.queue| + messages <= b.depth
  }

  /** On a bus with room, each due service call puts one beacon on the bus, and the numbers run on. */
  lemma {:induction false} BeaconsAreNumbered(e: Emitter, polls: seq<real>)
    requires e.timer.Legal() && RoomFor(e.bus, |polls|)
    ensures var c := EmitAll(e, polls);
            && e.bus.accepted <= c.bus.accepted && c.bus.depth == e.bus.depth
            && |c.bus.queue| == |e.bus.queue| + CadenceAfter(e.timer, polls).services <= |e.bus.queue| + |polls|
            && c.timer == CadenceAfter(e.timer, polls).timer
            && c.last == e.last + CadenceAfter(e.timer, polls).services
            && |c.bus.accepted| == |e.bus.accepted| + CadenceAfter(e.timer, polls).services
            && Numbered(c.bus.accepted[|e.bus.accepted|..], e.last + 1, polls)
    decreases |polls|
  {
    if polls != [] {
      BeaconsAreNumbered(e, polls[..|polls| - 1]);
    }
  }

  /** What a receiving check makes of the messages: one beat each. */
  function BeatsOf(ms: seq<Message>): (h: seq<Event>)
    ensures |h| == |ms|
  {
    seq(|ms|, i requires 0 <= i < |ms| =>
      Beat(LastSegment(ms[i].topic), if ms[i].payload.Beacon? then ms[i].payload.sequence else Missing, ms[i].at))
  }

  lemma {:induction false} RisingNumbersCount(h: seq<Event>, p: string, n: nat)
    requires n <= |h| && forall i :: 0 <= i < |h| ==> IsBeat(h, p, i) && BeatNumber(h, i) >= 0
    requires forall i, j :: 0 <= i < j < |h| && IsBeat(h, p, i) && IsBeat(h, p, j) ==>
                              BeatNumber(h, i) < BeatNumber(h, j)
    ensures AcceptedCount(h, p, n) == n
  {
    if n > 0 {
      RisingNumbersCount(h, p, n - 1);
      assert Accepted(h, p, n - 1);
    }
  }

  /**
   A peer that runs the same check hears our beacons on its subscription and accepts every one of them:
   as many as our emission timer's services.
   */
  lemma PeersAcceptOurBeacons(e: Emitter, polls: seq<real>) returns (sent: seq<Message>)
    requires e.timer.Legal() && RoomFor(e.bus, |polls|)
    ensures EmitAll(e, polls).bus.accepted == e.bus.accepted + sent
    ensures |sent| == CadenceAfter(e.timer, polls).services
    ensures forall m :: m in sent ==> Matches(PeerPattern(), m.topic)
    ensures AcceptedCount(BeatsOf(sent), "health-monitor", |sent|) == |sent|
  {
    hide EmitAll, CadenceAfter, Matches, LastSegment, PeerTopic;
    BeaconsAreNumbered(e, polls);
    sent := EmitAll(e, polls).bus.accepted[|e.bus.accepted|..];
    PeerTopicReachesPeer("health-monitor");
    NamedWithoutDot();
    var h := BeatsOf(sent);
    forall i | 0 <= i < |h|
      ensures IsBeat(h, "health-monitor", i) && BeatNumber(h, i) == e.last + 1 + i
    {
      assert sent[i].payload == Beacon(Number(e.last + 1 + i));
    }
    RisingNumbersCount(h, "health-monitor", |h|);
  }

  lemma NamedWithoutDot()
    ensures '.' !in "health-monitor"
  {
  }
}
