/**
 What the heartbeat check's running state means, over every history of beats and ticks.
 Each statement compares the state or the emitted results with a rescan of the whole
 history that keeps no state of its own.
 */
module LivenessHistory {
  import opened Outcomes
  import opened HealthTypes
  import opened MessageBuses
  import opened LivenessSpec

  /** A beacon handed to the subscriber, or a service call; `at` is the clock reading taken. */
  datatype Event = Beat(peer: string, field: SequenceField, at: real) | Tick(at: real)

  /** Construction: peers in dictionary order, each with the reading its timer was created at. */
  datatype Setup = Setup(order: seq<string>, created: map<string, real>, period: real, timeout: real, required: int)

  function Initial(c: Setup): Liveness {
    Liveness(c.order, map n | n in c.created :: NewPeer(c.period, c.timeout, c.created[n]), c.required, map[])
  }

  /** Readings never go back, and no event precedes a timer's creation. */
  ghost predicate ClockOrdered(c: Setup, h: seq<Event>) {
    && (forall i, j :: 0 <= i < j < |h| ==> h[i].at <= h[j].at)
    && (forall i, n :: 0 <= i < |h| && n in c.created ==> c.created[n] <= h[i].at)
  }

  function Apply(s: Liveness, e: Event): Liveness {
    match e
    case Beat(peer, field, at) => OnBeat(s, peer, field, at)
    case Tick(at) => OnTick(s, at)
  }

  /** The state after the first n events. */
  ghost function StateAt(c: Setup, h: seq<Event>, n: nat): (s: Liveness)
    requires n <= |h|
    ensures s.order == c.order && s.required == c.required && s.peers.Keys == c.created.Keys
  {
    if n == 0 then Initial(c)
    else
      var s := Apply(StateAt(c, h, n - 1), h[n - 1]);
      assert s.peers.Keys == c.created.Keys;
      s
  }

  /** What event i makes the check report. */
  ghost function ReportOf(c: Setup, h: seq<Event>, i: nat): seq<CheckResult>
    requires i < |h|
  {
    if h[i].Tick? then TickResults(StateAt(c, h, i), h[i].at) else []
  }

  /** Everything the first n events made the check report. */
  ghost function ReportsAt(c: Setup, h: seq<Event>, n: nat): seq<CheckResult>
    requires n <= |h|
  {
    if n == 0 then [] else ReportsAt(c, h, n - 1) + ReportOf(c, h, n - 1)
  }

  // ----- Peers do not interfere: each can be followed on its own -----

  function PeerStep(s: Peer, p: string, e: Event): (t: Peer)
    ensures t.timer.expiry == s.timer.expiry
  {
    match e
    case Beat(peer, field, at) =>
      if peer != p || field.NotAnInteger? || Stale(s, SequenceNumber(field)) then s
      else Refreshed(s, SequenceNumber(field), at)
    case Tick(at) => Observed(s, at)
  }

  ghost function PeerAt(c: Setup, h: seq<Event>, p: string, n: nat): (s: Peer)
    requires p in c.created && n <= |h|
    ensures s.timer.expiry == Some(c.timeout)
  {
    if n == 0 then NewPeer(c.period, c.timeout, c.created[p]) else PeerStep(PeerAt(c, h, p, n - 1), p, h[n - 1])
  }

  lemma StateStep(c: Setup, h: seq<Event>, p: string, n: nat)
    requires p in c.created && n <= |h|
    ensures n == 0 ==> StateAt(c, h, n).peers[p] == PeerAt(c, h, p, n)
    ensures n > 0 ==> StateAt(c, h, n).peers[p] == PeerStep(StateAt(c, h, n - 1).peers[p], p, h[n - 1])
  {
  }

  lemma PeerAtStep(c: Setup, h: seq<Event>, p: string, n: nat)
    requires p in c.created && 0 < n <= |h|
    ensures PeerAt(c, h, p, n) == PeerStep(PeerAt(c, h, p, n - 1), p, h[n - 1])
  {
  }

  lemma {:induction false} PeersAreIndependent(c: Setup, h: seq<Event>, p: string, n: nat)
    requires p in c.created && n <= |h|
    ensures StateAt(c, h, n).peers[p] == PeerAt(c, h, p, n)
  {
    hide *;
    StateStep(c, h, p, n);
    if n > 0 {
      PeersAreIndependent(c, h, p, n - 1);
      PeerAtStep(c, h, p, n);
    }
  }

  // ----- Which beats count, read off the history -----

  ghost predicate IsBeat(h: seq<Event>, p: string, i: int) {
    0 <= i < |h| && h[i].Beat? && h[i].peer == p && !h[i].field.NotAnInteger?
  }

  ghost function BeatNumber(h: seq<Event>, i: nat): int
    requires i < |h| && h[i].Beat? && !h[i].field.NotAnInteger?
  {
    SequenceNumber(h[i].field)
  }

  /** A beat with a negative or missing number arrived after k and before n. */
  ghost predicate RestartedSince(h: seq<Event>, p: string, k: int, n: int) {
    exists j :: k < j < n && IsBeat(h, p, j) && BeatNumber(h, j) < 0
  }

  /**
   A beat counts when its number is negative, or when every earlier beat of the peer with a
   number at least as high has been followed by a negative-numbered beat.
   */
  ghost predicate Accepted(h: seq<Event>, p: string, i: int) {
    && IsBeat(h, p, i)
    && (BeatNumber(h, i) < 0
        || forall k :: 0 <= k < i && IsBeat(h, p, k) && BeatNumber(h, k) >= BeatNumber(h, i) ==>
                         RestartedSince(h, p, k, i))
  }

  ghost function AcceptedCount(h: seq<Event>, p: string, n: nat): nat {
    if n == 0 then 0 else AcceptedCount(h, p, n - 1) + if Accepted(h, p, n - 1) then 1 else 0
  }

  /** The stored number is the greatest since the last restart, -1 when nothing has arrived. */
  ghost predicate IsRunningMaximum(h: seq<Event>, p: string, n: nat, stored: int) {
    && (forall k :: 0 <= k < n && IsBeat(h, p, k) ==> BeatNumber(h, k) <= stored || RestartedSince(h, p, k, n))
    && (|| (stored == -1 && forall k :: 0 <= k < n ==> !IsBeat(h, p, k))
        || exists k :: 0 <= k < n && IsBeat(h, p, k) && BeatNumber(h, k) == stored && !RestartedSince(h, p, k, n))
  }

  lemma RestartStep(h: seq<Event>, p: string, k: int, n: nat)
    requires 0 <= k < n < |h|
    ensures RestartedSince(h, p, k, n + 1) <==>
            RestartedSince(h, p, k, n) || (IsBeat(h, p, n) && BeatNumber(h, n) < 0)
  {
    if IsBeat(h, p, n) && BeatNumber(h, n) < 0 {
      assert k < n < n + 1 && IsBeat(h, p, n);
    }
  }

  lemma RunningMaximumKept(h: seq<Event>, p: string, n: nat, stored: int)
    requires n < |h| && IsRunningMaximum(h, p, n, stored) && !Accepted(h, p, n)
    ensures IsRunningMaximum(h, p, n + 1, stored)
    ensures IsBeat(h, p, n) ==> 0 <= BeatNumber(h, n) <= stored
  {
    forall k | 0 <= k < n
      ensures RestartedSince(h, p, k, n + 1) <==>
              RestartedSince(h, p, k, n) || (IsBeat(h, p, n) && BeatNumber(h, n) < 0)
    {
      RestartStep(h, p, k, n);
    }
    if IsBeat(h, p, n) {
      var k :| 0 <= k < n && IsBeat(h, p, k) && BeatNumber(h, k) >= BeatNumber(h, n) && !RestartedSince(h, p, k, n);
      assert BeatNumber(h, k) <= stored;
    }
  }

  lemma RunningMaximumReplaced(h: seq<Event>, p: string, n: nat, stored: int)
    requires n < |h| && IsRunningMaximum(h, p, n, stored) && Accepted(h, p, n)
    ensures IsRunningMaximum(h, p, n + 1, BeatNumber(h, n))
    ensures BeatNumber(h, n) < 0 || BeatNumber(h, n) > stored
  {
    forall k | 0 <= k < n
      ensures RestartedSince(h, p, k, n + 1) <==> RestartedSince(h, p, k, n) || BeatNumber(h, n) < 0
    {
      RestartStep(h, p, k, n);
    }
    assert !RestartedSince(h, p, n, n + 1);
    assert IsBeat(h, p, n);
  }

  /** What is stored for a peer, compared with a rescan of the history. */
  ghost predicate Tracks(c: Setup, h: seq<Event>, p: string, n: nat, s: Peer)
    requires p in c.created
  {
    && IsRunningMaximum(h, p, n, s.sequence)
    && s.refreshes == AcceptedCount(h, p, n)
    && (forall i :: 0 <= i < n && Accepted(h, p, i) ==> h[i].at <= s.timer.lastRefresh)
    && c.created[p] <= s.timer.lastRefresh
    && (s.timer.lastRefresh == c.created[p]
        || exists i :: 0 <= i < n && Accepted(h, p, i) && h[i].at == s.timer.lastRefresh)
  }

  lemma StepTracks(c: Setup, h: seq<Event>, p: string, n: nat, s: Peer)
    requires p in c.created && n < |h| && ClockOrdered(c, h)
    requires Tracks(c, h, p, n, s)
    ensures Tracks(c, h, p, n + 1, PeerStep(s, p, h[n]))
  {
    hide Accepted, IsRunningMaximum;
    var t := PeerStep(s, p, h[n]);
    StepAccepts(h, p, n, s);
    if Accepted(h, p, n) {
      RunningMaximumReplaced(h, p, n, s.sequence);
    } else {
      RunningMaximumKept(h, p, n, s.sequence);
    }
  }

  /** A beat is taken over exactly when it counts. */
  lemma StepAccepts(h: seq<Event>, p: string, n: nat, s: Peer)
    requires n < |h| && IsRunningMaximum(h, p, n, s.sequence)
    ensures var t := PeerStep(s, p, h[n]);
            if Accepted(h, p, n) then IsBeat(h, p, n) && t == Refreshed(s, BeatNumber(h, n), h[n].at)
            else t.sequence == s.sequence && t.timer == s.timer && t.refreshes == s.refreshes
  {
    if Accepted(h, p, n) {
      RunningMaximumReplaced(h, p, n, s.sequence);
    } else {
      RunningMaximumKept(h, p, n, s.sequence);
    }
  }

  lemma TracksAtCreation(c: Setup, h: seq<Event>, p: string)
    requires p in c.created
    ensures Tracks(c, h, p, 0, PeerAt(c, h, p, 0))
  {
  }

  /**
   Over any history, for every peer: the stored number is the running maximum, `refreshes`
   counts the accepted beats, and the expiry anchor is the latest accepted beat, or creation.
   */
  lemma StateTracksHistory(c: Setup, h: seq<Event>, p: string, n: nat)
    requires ClockOrdered(c, h) && p in c.created && n <= |h|
    ensures Tracks(c, h, p, n, StateAt(c, h, n).peers[p])
  {
    hide *;
    PeersAreIndependent(c, h, p, n);
    PeerTracksHistory(c, h, p, n);
  }

  lemma {:induction false} PeerTracksHistory(c: Setup, h: seq<Event>, p: string, n: nat)
    requires ClockOrdered(c, h) && p in c.created && n <= |h|
    ensures Tracks(c, h, p, n, PeerAt(c, h, p, n))
  {
    hide *;
    if n == 0 {
      TracksAtCreation(c, h, p);
    } else {
      PeerTracksHistory(c, h, p, n - 1);
      StepTracks(c, h, p, n - 1, PeerAt(c, h, p, n - 1));
      PeerAtStep(c, h, p, n);
    }
  }

  /**
   What beat i of a peer leaves stored: its number if it counts, nothing new otherwise. A beat without a
   number always counts, and makes every number from 0 on fresh again.
   */
  lemma BeatLeavesNumber(c: Setup, h: seq<Event>, p: string, i: nat)
    requires ClockOrdered(c, h) && p in c.created && i < |h| && IsBeat(h, p, i)
    ensures h[i].field.Missing? ==> Accepted(h, p, i)
    ensures var before, after := StateAt(c, h, i).peers[p], StateAt(c, h, i + 1).peers[p];
            if !Accepted(h, p, i) then after == before
            else after.sequence == if h[i].field.Missing? then -1 else h[i].field.n
  {
    hide StateAt, ClockOrdered, AcceptedCount;
    PeersAreIndependent(c, h, p, i);
    PeersAreIndependent(c, h, p, i + 1);
    PeerTracksHistory(c, h, p, i);
    PeerAtStep(c, h, p, i + 1);
    var s := PeerAt(c, h, p, i);
    if Accepted(h, p, i) {
      RunningMaximumReplaced(h, p, i, s.sequence);
    } else {
      RunningMaximumKept(h, p, i, s.sequence);
    }
  }

  /** The creation, or some accepted beat, lies within the timeout before `now`. */
  ghost predicate HeardRecently(c: Setup, h: seq<Event>, p: string, n: nat, now: real)
    requires p in c.created
  {
    || now - c.created[p] <= c.timeout
    || exists i :: 0 <= i < n && Accepted(h, p, i) && now - h[i].at <= c.timeout
  }

  /**
   Liveness refinement: after each tick a peer is live exactly when its creation or some
   accepted beat lies within the timeout before that tick.
   */
  lemma LivenessRefinesHistory(c: Setup, h: seq<Event>, p: string, n: nat)
    requires ClockOrdered(c, h) && p in c.created
    requires 0 < n <= |h| && h[n - 1].Tick?
    ensures StateAt(c, h, n).peers[p].live <==> HeardRecently(c, h, p, n, h[n - 1].at)
  {
    hide StateAt, IsRunningMaximum, AcceptedCount;
    PeersAreIndependent(c, h, p, n);
    PeerAtStep(c, h, p, n);
    PeerTracksHistory(c, h, p, n - 1);
    assert !Accepted(h, p, n - 1);
  }

  ghost predicate NumberSeen(h: seq<Event>, p: string, x: int) {
    exists i :: IsBeat(h, p, i) && BeatNumber(h, i) == x
  }

  ghost predicate NeverRestarts(h: seq<Event>, p: string) {
    forall i :: IsBeat(h, p, i) ==> BeatNumber(h, i) >= 0
  }

  /** Without negative numbers, what is stored is the greatest number seen. */
  lemma StoredIsGreatestSeen(c: Setup, h: seq<Event>, p: string)
    requires ClockOrdered(c, h) && p in c.created && NeverRestarts(h, p)
    ensures var stored := StateAt(c, h, |h|).peers[p].sequence;
            && (forall x :: NumberSeen(h, p, x) ==> 0 <= x <= stored)
            && (NumberSeen(h, p, stored) || (stored == -1 && forall x :: !NumberSeen(h, p, x)))
  {
    StateTracksHistory(c, h, p, |h|);
    RunningMaximumWithoutRestarts(h, p, StateAt(c, h, |h|).peers[p].sequence);
  }

  lemma RunningMaximumWithoutRestarts(h: seq<Event>, p: string, stored: int)
    requires IsRunningMaximum(h, p, |h|, stored) && NeverRestarts(h, p)
    ensures forall x :: NumberSeen(h, p, x) ==> 0 <= x <= stored
    ensures NumberSeen(h, p, stored) || (stored == -1 && forall x :: !NumberSeen(h, p, x))
  {
  }

  /** However beats with the same numbers are reordered or repeated, the same number ends up stored. */
  lemma ReorderingKeepsSequence(c: Setup, h: seq<Event>, g: seq<Event>, p: string)
    requires ClockOrdered(c, h) && ClockOrdered(c, g) && p in c.created
    requires NeverRestarts(h, p) && NeverRestarts(g, p)
    requires forall x :: NumberSeen(h, p, x) <==> NumberSeen(g, p, x)
    ensures StateAt(c, h, |h|).peers[p].sequence == StateAt(c, g, |g|).peers[p].sequence
  {
    hide StateAt, NumberSeen, NeverRestarts;
    StoredIsGreatestSeen(c, h, p);
    StoredIsGreatestSeen(c, g, p);
  }
}
