/**
 What a single report of the heartbeat check carries, over any history: whom quorum counts, how long
 a peer has been silent, and in which order a call reports.
 */
module LivenessReports {
  import opened HealthTypes
  import opened LivenessSpec
  import opened LivenessHistory
  import opened LivenessStreams
  import opened PeerDelivery

  // ----- Whom quorum counts -----

  /** The listed peers that are live. */
  ghost function LiveNames(order: seq<string>, peers: map<string, Peer>): set<string> {
    set n | n in order && n in peers && peers[n].live
  }

  lemma {:induction false} LiveCountIsCardinality(order: seq<string>, peers: map<string, Peer>)
    requires forall i, j :: 0 <= i < j < |order| ==> order[i] != order[j]
    ensures LiveCount(order, peers) == |LiveNames(order, peers)|
  {
    hide LiveNames;
    if order == [] {
      NoLiveNames(peers);
    } else {
      LiveCountIsCardinality(order[..|order| - 1], peers);
      OneMoreName(order, peers);
    }
  }

  lemma NoLiveNames(peers: map<string, Peer>)
    ensures LiveNames([], peers) == {}
  {
  }

  lemma OneMoreName(order: seq<string>, peers: map<string, Peer>)
    requires order != [] && order[|order| - 1] !in order[..|order| - 1]
    ensures var front, last := order[..|order| - 1], order[|order| - 1];
            && last !in LiveNames(front, peers)
            && LiveNames(order, peers)
            == LiveNames(front, peers) + if last in peers && peers[last].live then {last} else {}
  {
    var front, last := order[..|order| - 1], order[|order| - 1];
    assert forall n :: n in order <==> n in front || n == last;
  }

  /** The peers whose creation or some accepted beat lies within the timeout before the last of n events. */
  ghost function HeardPeers(c: Setup, h: seq<Event>, n: nat): set<string>
    requires 0 < n <= |h|
  {
    set p | p in c.created && HeardRecently(c, h, p, n, h[n - 1].at)
  }

  /**
   After every service call the live count is the number of peers heard within the timeout, so quorum
   is lost exactly when they are fewer than required.
   */
  lemma QuorumCountsHeardPeers(c: Setup, h: seq<Event>, n: nat)
    requires ListsPeers(c) && ClockOrdered(c, h) && 0 < n <= |h| && h[n - 1].Tick?
    ensures LiveCount(c.order, StateAt(c, h, n).peers) == |HeardPeers(c, h, n)|
    ensures QuorumAt(c, h, n) == if |HeardPeers(c, h, n)| < c.required then Fault else Ok
  {
    hide StateAt, HeardRecently, ClockOrdered;
    var peers := StateAt(c, h, n).peers;
    LiveCountIsCardinality(c.order, peers);
    forall p | p in c.created
      ensures peers[p].live <==> HeardRecently(c, h, p, n, h[n - 1].at)
    {
      LivenessRefinesHistory(c, h, p, n);
    }
    assert LiveNames(c.order, peers) == HeardPeers(c, h, n);
  }

  /** A quorum result tells how many peers were heard, how many are required and how many there are. */
  lemma QuorumResultTells(c: Setup, h: seq<Event>, i: nat)
    requires WellNamed(c) && ClockOrdered(c, h) && i < |h| && h[i].Tick?
    ensures forall r :: r in ResultsOf(ReportOf(c, h, i), QUORUM_SUBJECT) ==>
                          var heard := |HeardPeers(c, h, i + 1)|;
                          && r.metrics == QuorumMetrics(heard, c.required, |c.order|)
                          && r.state == (if heard < c.required then Fault else Ok)
  {
    hide StateAt, ResultsOf, ReportOf, HeardPeers, ClockOrdered, LiveCount, ObservedPeers, TickResults;
    ReportOfQuorum(c, h, i);
    QuorumCountsHeardPeers(c, h, i + 1);
    StateAfterTick(c, h, i + 1);
  }

  // ----- What every report carries -----

  lemma {:induction false} TransitionsAreStamped(order: seq<string>, peers: map<string, Peer>, now: real)
    ensures forall r :: r in Transitions(order, peers, now) ==>
                          r.check == "heartbeat" && r.at == now && r.subject in order && r.state in {Ok, Fault}
  {
    if order != [] {
      TransitionsAreStamped(order[..|order| - 1], peers, now);
    }
  }

  /** Every result names the heartbeat check, the service call's instant, and a peer or the quorum. */
  lemma ReportsAreStamped(c: Setup, h: seq<Event>, i: nat)
    requires i < |h|
    ensures forall r :: r in ReportOf(c, h, i) ==>
                          && r.check == "heartbeat" && r.at == h[i].at && r.state in {Ok, Fault}
                          && (r.subject in c.order || r.subject == "quorum")
  {
    if h[i].Tick? {
      TransitionsAreStamped(c.order, StateAt(c, h, i).peers, h[i].at);
    }
  }

  /** Listed one before the other. */
  ghost predicate ListedBefore(order: seq<string>, p: string, q: string) {
    exists x, y :: 0 <= x < y < |order| && order[x] == p && order[y] == q
  }

  lemma {:induction false} TransitionsFollowOrder(order: seq<string>, peers: map<string, Peer>, now: real)
    ensures forall a, b :: 0 <= a < b < |Transitions(order, peers, now)| ==>
                             ListedBefore(order, Transitions(order, peers, now)[a].subject,
                                          Transitions(order, peers, now)[b].subject)
  {
    hide Transition;
    if order != [] {
      var front, last := order[..|order| - 1], order[|order| - 1];
      TransitionsFollowOrder(front, peers, now);
      TransitionsAreStamped(front, peers, now);
      var earlier, all := Transitions(front, peers, now), Transitions(order, peers, now);
      if last in peers {
        AtMostOneTransition(last, peers, now);
      }
      forall a, b | 0 <= a < b < |all|
        ensures ListedBefore(order, all[a].subject, all[b].subject)
      {
        assert all[a] == earlier[a] && earlier[a] in earlier;
        if b < |earlier| {
          assert ListedBefore(front, earlier[a].subject, earlier[b].subject);
          var x, y :| 0 <= x < y < |front| && front[x] == earlier[a].subject && front[y] == earlier[b].subject;
          assert order[x] == front[x] && order[y] == front[y];
        } else {
          var x :| 0 <= x < |front| && front[x] == all[a].subject;
          assert order[x] == front[x] && order[|order| - 1] == all[b].subject;
        }
      }
    }
  }

  lemma AtMostOneTransition(name: string, peers: map<string, Peer>, now: real)
    requires name in peers
    ensures |Transition(name, peers[name], now)| <= 1
    ensures forall r :: r in Transition(name, peers[name], now) ==> r.subject == name
  {
  }

  /** A service call reports peers in their order, and quorum, at most once, last. */
  lemma ReportsFollowOrder(c: Setup, h: seq<Event>, i: nat)
    requires WellNamed(c) && i < |h|
    ensures var rs := ReportOf(c, h, i);
            forall a, b :: 0 <= a < b < |rs| ==>
                             && rs[a].subject != QUORUM_SUBJECT
                             && (rs[b].subject == QUORUM_SUBJECT || ListedBefore(c.order, rs[a].subject, rs[b].subject))
  {
    hide Transition, StateAt, Transitions;
    if h[i].Tick? {
      var s, now := StateAt(c, h, i), h[i].at;
      TransitionsFollowOrder(c.order, s.peers, now);
      TransitionsAreStamped(c.order, s.peers, now);
      var earlier, rs := Transitions(c.order, s.peers, now), ReportOf(c, h, i);
      assert forall a :: 0 <= a < |earlier| ==> rs[a] == earlier[a] && earlier[a] in earlier;
    }
  }

  /**
   A result about a peer tells how long ago it was last heard, and how many of its beats had counted
   by then.
   */
  lemma PeerResultTells(c: Setup, h: seq<Event>, p: string, i: nat, r: real)
    requires OwnSubject(c, p) && ClockOrdered(c, h) && p in c.created && i < |h| && h[i].Tick?
    requires LastHeard(c, h, p, i, r)
    ensures forall told :: told in ResultsOf(ReportOf(c, h, i), p) ==>
                             && told.metrics.PeerMetrics?
                             && told.metrics.silentFor == h[i].at - r
                             && told.metrics.refreshes == AcceptedCount(h, p, i)
                             && (told.state == Fault <==> h[i].at - r > c.timeout)
  {
    hide StateAt, ResultsOf, ReportOf, LastHeard, ClockOrdered, AcceptedCount, IsRunningMaximum, PeerAt;
    ReportOfPeer(c, h, i, p);
    AnchorIsLastHeard(c, h, p, i, r);
    PeerTracksHistory(c, h, p, i);
  }
}
