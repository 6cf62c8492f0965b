/**
 Peer liveness as a function of state: what one beat and one tick do
 (src/health_monitor/checks/heartbeat.py). The class in Heartbeat.dfy is proved to do
 exactly this; LivenessHistory.dfy proves what it means over whole histories.
 */
module LivenessSpec {
  import opened Outcomes
  import opened HealthTypes
  import opened IntervalTimers
  import opened MessageBuses
  import opened PeriodicChecks

  const HEARTBEAT_ID := "heartbeat"
  const QUORUM_SUBJECT := "quorum"

  datatype Peer = Peer(timer: Timer, live: bool, sequence: int, losses: nat, refreshes: nat)

  datatype Liveness = Liveness(
    order: seq<string>,
    peers: map<string, Peer>,
    required: int,
    lastPublished: map<string, HealthState>)

  function NewPeer(period: real, timeout: real, now: real): Peer {
    Peer(NewTimer(period, Some(timeout), now, false), true, -1, 0, 0)
  }

  // ----- One beat -----

  /** The sequence number a beacon carries; a missing entry reads as -1. */
  function SequenceNumber(f: SequenceField): int
    requires !f.NotAnInteger?
  {
    if f.Missing? then -1 else f.n
  }

  function Stale(p: Peer, n: int): bool {
    n >= 0 && n <= p.sequence
  }

  function Refreshed(p: Peer, n: int, at: real): Peer {
    p.(sequence := n, refreshes := p.refreshes + 1, timer := p.timer.Refresh(at))
  }

  function OnBeat(s: Liveness, peer: string, f: SequenceField, at: real): Liveness {
    if peer !in s.peers || f.NotAnInteger? || Stale(s.peers[peer], SequenceNumber(f)) then s
    else s.(peers := s.peers[peer := Refreshed(s.peers[peer], SequenceNumber(f), at)])
  }

  // ----- One tick -----

  function Observed(p: Peer, now: real): Peer
  {
    var live := !p.timer.Expired(now);
    p.(live := live, losses := if p.live && !live then p.losses + 1 else p.losses)
  }

  function SilentFor(p: Peer, now: real): real
  {
    var t := p.timer.TimeSinceRefresh(now);
    if t.Some? then t.value else 0.0
  }

  /** The result for a peer, present only when its liveness changes. */
  function Transition(name: string, p: Peer, now: real): seq<CheckResult>
  {
    var q := Observed(p, now);
    if q.live == p.live then []
    else [CheckResult(HEARTBEAT_ID, if q.live then Ok else Fault, name,
                      PeerMetrics(SilentFor(p, now), q.losses, q.refreshes), now)]
  }

  function ObservedPeers(peers: map<string, Peer>, now: real): map<string, Peer>
  {
    map n | n in peers :: Observed(peers[n], now)
  }

  /** The peers partway through a tick: those listed have been observed, the others not yet. */
  function ObservedSome(peers: map<string, Peer>, done: seq<string>, now: real): (seen: map<string, Peer>)
    ensures seen.Keys == peers.Keys
    ensures forall n :: n in peers ==> seen[n] == if n in done then Observed(peers[n], now) else peers[n]
  {
    if done == [] then peers
    else
      var last := done[|done| - 1];
      var seen := ObservedSome(peers, done[..|done| - 1], now);
      if last in peers then seen[last := Observed(peers[last], now)] else seen
  }

  function Transitions(order: seq<string>, peers: map<string, Peer>, now: real): seq<CheckResult>
  {
    if order == [] then []
    else
      var n := order[|order| - 1];
      Transitions(order[..|order| - 1], peers, now) + if n in peers then Transition(n, peers[n], now) else []
  }

  /** Observing one more listed peer. */
  lemma ObserveOneMore(peers: map<string, Peer>, order: seq<string>, i: nat, now: real)
    requires i < |order| && order[i] in peers && order[i] !in order[..i]
    ensures var seen := ObservedSome(peers, order[..i], now);
            && seen[order[i]] == peers[order[i]]
            && ObservedSome(peers, order[..i + 1], now) == seen[order[i] := Observed(peers[order[i]], now)]
    ensures Transitions(order[..i + 1], peers, now)
         == Transitions(order[..i], peers, now) + Transition(order[i], peers[order[i]], now)
  {
    hide Observed, Transition;
    assert order[..i + 1][..i] == order[..i];
  }

  lemma NoneObserved(peers: map<string, Peer>, order: seq<string>, now: real)
    ensures ObservedSome(peers, order[..0], now) == peers && Transitions(order[..0], peers, now) == []
  {
  }

  lemma AllObserved(peers: map<string, Peer>, order: seq<string>, now: real)
    requires forall n :: n in peers <==> n in order
    ensures ObservedSome(peers, order, now) == ObservedPeers(peers, now)
  {
    hide Observed;
  }

  function LiveCount(order: seq<string>, peers: map<string, Peer>): nat
  {
    if order == [] then 0
    else
      var n := order[|order| - 1];
      LiveCount(order[..|order| - 1], peers) + if n in peers && peers[n].live then 1 else 0
  }

  function QuorumState(live: nat, required: int): HealthState {
    if live >= required then Ok else Fault
  }

  /** The quorum result, present only when the state differs from the last one published. */
  function QuorumReport(s: Liveness, now: real): seq<CheckResult>
  {
    var live := LiveCount(s.order, s.peers);
    var state := QuorumState(live, s.required);
    if QUORUM_SUBJECT in s.lastPublished && s.lastPublished[QUORUM_SUBJECT] == state then []
    else [CheckResult(HEARTBEAT_ID, state, QUORUM_SUBJECT, QuorumMetrics(live, s.required, |s.order|), now)]
  }

  function TickResults(s: Liveness, now: real): seq<CheckResult>
  {
    var observed := s.(peers := ObservedPeers(s.peers, now));
    Transitions(s.order, s.peers, now) + QuorumReport(observed, now)
  }

  function OnTick(s: Liveness, now: real): Liveness
  {
    s.(peers := ObservedPeers(s.peers, now), lastPublished := LastStates(s.lastPublished, TickResults(s, now)))
  }
}
