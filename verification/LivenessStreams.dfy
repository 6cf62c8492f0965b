/**
 What the emitted results say, over every history: they alternate, they carry the whole
 liveness and quorum state, recovery needs fresh evidence, and faults are conserved.
 */
module LivenessStreams {
  import opened Outcomes
  import opened HealthTypes
  import opened IntervalTimers
  import opened MessageBuses
  import opened PeriodicChecks
  import opened LivenessSpec
  import opened LivenessHistory

  /** The order lists the configured peers, once each: what a dictionary guarantees. */
  ghost predicate ListsPeers(c: Setup) {
    && (forall i, j :: 0 <= i < j < |c.order| ==> c.order[i] != c.order[j])
    && (forall n :: n in c.order <==> n in c.created)
  }

  /** Besides, no peer is called like the quorum subject. */
  ghost predicate WellNamed(c: Setup) {
    ListsPeers(c) && QUORUM_SUBJECT !in c.created
  }

  /** The peer's results have a subject of their own, even if some other peer is called like the quorum subject. */
  ghost predicate OwnSubject(c: Setup, p: string) {
    ListsPeers(c) && p != QUORUM_SUBJECT
  }

  // ----- One peer's results -----

  /** A list of at most one result, about one subject. */
  ghost predicate AtMostOneAbout(rs: seq<CheckResult>, name: string) {
    |rs| <= 1 && forall r :: r in rs ==> r.subject == name
  }

  lemma NothingAbout(p: string)
    ensures ResultsOf([], p) == []
  {
  }

  lemma TransitionIsAboutPeer(name: string, peers: map<string, Peer>, now: real)
    ensures AtMostOneAbout(if name in peers then Transition(name, peers[name], now) else [], name)
  {
  }

  lemma QuorumReportIsAboutQuorum(s: Liveness, now: real)
    ensures AtMostOneAbout(QuorumReport(s, now), QUORUM_SUBJECT)
  {
  }

  lemma {:induction false} TransitionsOfPeer(order: seq<string>, peers: map<string, Peer>, now: real, p: string)
    requires forall i, j :: 0 <= i < j < |order| ==> order[i] != order[j]
    ensures ResultsOf(Transitions(order, peers, now), p)
         == if p in order && p in peers then Transition(p, peers[p], now) else []
  {
    hide Transition, AtMostOneAbout, ResultsOf;
    NothingAbout(p);
    if order != [] {
      var front, last := order[..|order| - 1], order[|order| - 1];
      TransitionsOfPeer(front, peers, now, p);
      var mine := if last in peers then Transition(last, peers[last], now) else [];
      ResultsOfConcat(Transitions(front, peers, now), mine, p);
      TransitionIsAboutPeer(last, peers, now);
      ResultsOfTransition(mine, last, p);
      assert p in order <==> p in front || p == last;
    }
  }

  lemma ResultsOfTransition(rs: seq<CheckResult>, name: string, p: string)
    requires AtMostOneAbout(rs, name)
    ensures ResultsOf(rs, p) == if p == name then rs else []
  {
    if |rs| == 1 {
      assert rs[..0] == [] && rs[0] in rs;
      assert rs == [rs[0]];
    }
  }

  /** A service call reports about a peer exactly that peer's transition. */
  lemma ReportOfPeer(c: Setup, h: seq<Event>, i: nat, p: string)
    requires OwnSubject(c, p) && p in c.created && i < |h|
    ensures ResultsOf(ReportOf(c, h, i), p)
         == if h[i].Tick? then Transition(p, PeerAt(c, h, p, i), h[i].at) else []
  {
    hide Transition, ObservedPeers, StateAt, PeerAt, QuorumReport, ResultsOf, AtMostOneAbout;
    NothingAbout(p);
    if h[i].Tick? {
      var s, now := StateAt(c, h, i), h[i].at;
      PeersAreIndependent(c, h, p, i);
      TransitionsOfPeer(s.order, s.peers, now, p);
      var quorum := QuorumReport(s.(peers := ObservedPeers(s.peers, now)), now);
      ResultsOfConcat(Transitions(s.order, s.peers, now), quorum, p);
      QuorumReportIsAboutQuorum(s.(peers := ObservedPeers(s.peers, now)), now);
      ResultsOfTransition(quorum, QUORUM_SUBJECT, p);
    }
  }

  /** Everything reported about one peer, compared with the peer's state. */
  ghost predicate TellsPeer(c: Setup, told: seq<CheckResult>, s: Peer) {
    && (s.live <==> |told| % 2 == 0)
    && s.losses == (|told| + 1) / 2
    && (forall i :: 0 <= i < |told| ==>
                      && told[i].state == (if i % 2 == 0 then Fault else Ok)
                      && told[i].metrics.PeerMetrics?
                      && told[i].metrics.losses == i / 2 + 1
                      && told[i].metrics.refreshes <= s.refreshes)
    && (forall i :: 0 < i < |told| && i % 2 == 1 ==> told[i - 1].metrics.refreshes < told[i].metrics.refreshes)
    // while lost, either a beat has been accepted since the loss or the anchor still is as old as it was then
    && (!s.live ==> || told[|told| - 1].metrics.refreshes < s.refreshes
                    || told[|told| - 1].at - s.timer.lastRefresh > c.timeout)
  }

  lemma BeatTells(c: Setup, told: seq<CheckResult>, s: Peer, p: string, e: Event)
    requires e.Beat? && TellsPeer(c, told, s)
    ensures TellsPeer(c, told, PeerStep(s, p, e))
  {
  }

  lemma TickTells(c: Setup, told: seq<CheckResult>, s: Peer, p: string, now: real)
    requires TellsPeer(c, told, s) && s.timer.expiry == Some(c.timeout)
    requires forall i :: 0 <= i < |told| ==> told[i].at <= now
    ensures TellsPeer(c, told + Transition(p, s, now), Observed(s, now))
  {
    var t := Observed(s, now);
    if t.live == s.live {
      assert told + Transition(p, s, now) == told;
    } else {
      OneMoreTold(c, told, s, t, Transition(p, s, now)[0]);
      assert Transition(p, s, now) == [Transition(p, s, now)[0]];
    }
  }

  lemma OneMoreTold(c: Setup, told: seq<CheckResult>, s: Peer, t: Peer, r: CheckResult)
    requires TellsPeer(c, told, s) && t.live != s.live && t.refreshes == s.refreshes
    requires t.losses == s.losses + if s.live then 1 else 0
    requires r.state == (if t.live then Ok else Fault)
    requires r.metrics.PeerMetrics? && r.metrics.losses == t.losses && r.metrics.refreshes == t.refreshes
    requires t.live ==> told[|told| - 1].metrics.refreshes < s.refreshes
    requires !t.live ==> r.at - t.timer.lastRefresh > c.timeout
    ensures TellsPeer(c, told + [r], t)
  {
    var more := told + [r];
    assert forall i :: 0 <= i < |told| ==> more[i] == told[i];
    assert more[|told|] == r;
  }

  ghost predicate ToldByThen(told: seq<CheckResult>, h: seq<Event>, n: nat)
    requires n <= |h|
  {
    if n == 0 then told == [] else forall i :: 0 <= i < |told| ==> told[i].at <= h[n - 1].at
  }

  lemma {:induction false} PeerStreamShape(c: Setup, h: seq<Event>, p: string, n: nat)
    requires OwnSubject(c, p) && ClockOrdered(c, h) && p in c.created && n <= |h|
    ensures TellsPeer(c, ResultsOf(ReportsAt(c, h, n), p), PeerAt(c, h, p, n))
    ensures ToldByThen(ResultsOf(ReportsAt(c, h, n), p), h, n)
  {
    hide *;
    if n == 0 {
      FreshPeerTells(c, h, p);
    } else {
      PeerStreamShape(c, h, p, n - 1);
      ReportsStep(c, h, n);
      ResultsOfConcat(ReportsAt(c, h, n - 1), ReportOf(c, h, n - 1), p);
      ReportOfPeer(c, h, n - 1, p);
      PeerAtStep(c, h, p, n);
      EventTells(c, h, p, n, ResultsOf(ReportsAt(c, h, n - 1), p), PeerAt(c, h, p, n - 1));
    }
  }

  lemma FreshPeerTells(c: Setup, h: seq<Event>, p: string)
    requires p in c.created
    ensures TellsPeer(c, ResultsOf(ReportsAt(c, h, 0), p), PeerAt(c, h, p, 0))
    ensures ToldByThen(ResultsOf(ReportsAt(c, h, 0), p), h, 0)
  {
  }

  lemma EventTells(c: Setup, h: seq<Event>, p: string, n: nat, told: seq<CheckResult>, s: Peer)
    requires ClockOrdered(c, h) && 0 < n <= |h| && s.timer.expiry == Some(c.timeout)
    requires TellsPeer(c, told, s) && ToldByThen(told, h, n - 1)
    ensures var more := told + if h[n - 1].Tick? then Transition(p, s, h[n - 1].at) else [];
            TellsPeer(c, more, PeerStep(s, p, h[n - 1])) && ToldByThen(more, h, n)
  {
    hide TellsPeer;
    if h[n - 1].Tick? {
      TickTells(c, told, s, p, h[n - 1].at);
    } else {
      BeatTells(c, told, s, p, h[n - 1]);
      assert told + [] == told;
    }
  }

  /** What a reader of one peer's results can rely on. */
  ghost predicate PeerStory(told: seq<CheckResult>, s: Peer) {
    && (forall i :: 0 <= i < |told| ==> told[i].state == (if i % 2 == 0 then Fault else Ok))
    && (forall i :: 0 <= i < |told| ==> told[i].metrics.PeerMetrics? && told[i].metrics.losses == i / 2 + 1)
    && (forall i :: 0 < i < |told| && i % 2 == 1 ==> told[i - 1].metrics.refreshes < told[i].metrics.refreshes)
    && (s.live <==> told == [] || told[|told| - 1].state == Ok)
    && s.losses == CountState(told, Fault)
  }

  lemma StoryFromState(c: Setup, told: seq<CheckResult>, s: Peer)
    requires TellsPeer(c, told, s)
    ensures PeerStory(told, s)
  {
    AlternatingFaults(told);
  }

  /**
   The results about one peer strictly alternate FAULT, OK, FAULT and so on; the k-th FAULT
   carries loss count k; each OK carries more refreshes than the FAULT before it, so recovery
   needs an accepted beat; and the peer is live exactly when the last result, if any, is OK.
   */
  lemma PeerResultsAlternate(c: Setup, h: seq<Event>, p: string, n: nat)
    requires OwnSubject(c, p) && ClockOrdered(c, h) && p in c.created && n <= |h|
    ensures PeerStory(ResultsOf(ReportsAt(c, h, n), p), StateAt(c, h, n).peers[p])
  {
    hide *;
    PeerStreamShape(c, h, p, n);
    PeersAreIndependent(c, h, p, n);
    StoryFromState(c, ResultsOf(ReportsAt(c, h, n), p), PeerAt(c, h, p, n));
  }

  lemma {:induction false} AlternatingFaults(told: seq<CheckResult>)
    requires forall i :: 0 <= i < |told| ==> told[i].state == (if i % 2 == 0 then Fault else Ok)
    ensures CountState(told, Fault) == (|told| + 1) / 2
  {
    if told != [] {
      AlternatingFaults(told[..|told| - 1]);
    }
  }

  // ----- Quorum results -----

  ghost function QuorumAt(c: Setup, h: seq<Event>, n: nat): HealthState
    requires n <= |h|
  {
    QuorumState(LiveCount(c.order, StateAt(c, h, n).peers), c.required)
  }

  ghost predicate Ticked(h: seq<Event>, n: nat) {
    exists i :: 0 <= i < n && i < |h| && h[i].Tick?
  }

  lemma {:induction false} TransitionsNeverAboutQuorum(order: seq<string>, peers: map<string, Peer>, now: real)
    requires QUORUM_SUBJECT !in peers
    ensures ResultsOf(Transitions(order, peers, now), QUORUM_SUBJECT) == []
  {
    hide Transition, AtMostOneAbout;
    if order != [] {
      var front, last := order[..|order| - 1], order[|order| - 1];
      TransitionsNeverAboutQuorum(front, peers, now);
      var mine := if last in peers then Transition(last, peers[last], now) else [];
      ResultsOfConcat(Transitions(front, peers, now), mine, QUORUM_SUBJECT);
      TransitionIsAboutPeer(last, peers, now);
      ResultsOfTransition(mine, last, QUORUM_SUBJECT);
    }
  }

  lemma ReportOfQuorum(c: Setup, h: seq<Event>, i: nat)
    requires WellNamed(c) && i < |h| && h[i].Tick?
    ensures ResultsOf(ReportOf(c, h, i), QUORUM_SUBJECT) == QuorumReport(
              StateAt(c, h, i).(peers := ObservedPeers(StateAt(c, h, i).peers, h[i].at)), h[i].at)
  {
    hide StateAt, ObservedPeers, LiveCount, QuorumReport, ResultsOf, AtMostOneAbout;
    var s, now := StateAt(c, h, i), h[i].at;
    var quorum := QuorumReport(s.(peers := ObservedPeers(s.peers, now)), now);
    TransitionsNeverAboutQuorum(s.order, s.peers, now);
    ResultsOfConcat(Transitions(s.order, s.peers, now), quorum, QUORUM_SUBJECT);
    QuorumReportIsAboutQuorum(s.(peers := ObservedPeers(s.peers, now)), now);
    ResultsOfTransition(quorum, QUORUM_SUBJECT, QUORUM_SUBJECT);
  }

  lemma {:induction false} LastStatesConcat(known: map<string, HealthState>, a: seq<CheckResult>, b: seq<CheckResult>)
    ensures LastStates(known, a + b) == LastStates(LastStates(known, a), b)
  {
    if b == [] {
      assert a + b == a;
    } else {
      assert (a + b)[..|a + b| - 1] == a + b[..|b| - 1];
      LastStatesConcat(known, a, b[..|b| - 1]);
    }
  }

  /** What the check remembers publishing is what it reported. */
  lemma {:induction false} RemembersReports(c: Setup, h: seq<Event>, n: nat)
    requires n <= |h|
    ensures StateAt(c, h, n).lastPublished == LastStates(map[], ReportsAt(c, h, n))
  {
    if n > 0 {
      RemembersReports(c, h, n - 1);
      LastStatesConcat(map[], ReportsAt(c, h, n - 1), ReportOf(c, h, n - 1));
      ForgetsNothing(c, h, n);
    }
  }

  lemma ForgetsNothing(c: Setup, h: seq<Event>, n: nat)
    requires 0 < n <= |h|
    ensures StateAt(c, h, n).lastPublished == LastStates(StateAt(c, h, n - 1).lastPublished, ReportOf(c, h, n - 1))
  {
  }

  lemma {:induction false} SameLiveSameCount(order: seq<string>, a: map<string, Peer>, b: map<string, Peer>)
    requires a.Keys == b.Keys && forall p :: p in a ==> a[p].live == b[p].live
    ensures LiveCount(order, a) == LiveCount(order, b)
  {
    if order != [] {
      SameLiveSameCount(order[..|order| - 1], a, b);
    }
  }

  lemma BeatKeepsQuorum(c: Setup, h: seq<Event>, n: nat)
    requires 0 < n <= |h| && h[n - 1].Beat?
    ensures QuorumAt(c, h, n) == QuorumAt(c, h, n - 1)
  {
    SameLiveSameCount(c.order, StateAt(c, h, n).peers, StateAt(c, h, n - 1).peers);
  }

  /** Everything reported about quorum: no state twice in a row, and the last one is current. */
  ghost predicate TellsQuorum(told: seq<CheckResult>, ticked: bool, current: HealthState) {
    && (forall i :: 0 < i < |told| ==> told[i].state != told[i - 1].state)
    && (told != [] <==> ticked)
    && (ticked ==> told[|told| - 1].state == current)
  }

  /**
   Quorum results never repeat a state, start with the first service call, and the last one
   is always the quorum state of the peers as they now stand.
   */
  lemma {:induction false} QuorumResultsAreCurrent(c: Setup, h: seq<Event>, n: nat)
    requires WellNamed(c) && n <= |h|
    ensures TellsQuorum(ResultsOf(ReportsAt(c, h, n), QUORUM_SUBJECT), Ticked(h, n), QuorumAt(c, h, n))
  {
    hide *;
    if n == 0 {
      NothingToldAtFirst(c, h);
    } else {
      QuorumResultsAreCurrent(c, h, n - 1);
      QuorumStep(c, h, n);
    }
  }

  lemma NothingToldAtFirst(c: Setup, h: seq<Event>)
    ensures TellsQuorum(ResultsOf(ReportsAt(c, h, 0), QUORUM_SUBJECT), Ticked(h, 0), QuorumAt(c, h, 0))
  {
  }

  lemma QuorumStep(c: Setup, h: seq<Event>, n: nat)
    requires WellNamed(c) && 0 < n <= |h|
    requires TellsQuorum(ResultsOf(ReportsAt(c, h, n - 1), QUORUM_SUBJECT), Ticked(h, n - 1), QuorumAt(c, h, n - 1))
    ensures TellsQuorum(ResultsOf(ReportsAt(c, h, n), QUORUM_SUBJECT), Ticked(h, n), QuorumAt(c, h, n))
  {
    hide *;
    var told := ResultsOf(ReportsAt(c, h, n - 1), QUORUM_SUBJECT);
    ReportsStep(c, h, n);
    ResultsOfConcat(ReportsAt(c, h, n - 1), ReportOf(c, h, n - 1), QUORUM_SUBJECT);
    TickedStep(h, n);
    if h[n - 1].Beat? {
      BeatKeepsQuorum(c, h, n);
      BeatReportsNothing(c, h, n - 1);
      assert told + [] == told;
    } else {
      QuorumReportComparesWithLast(c, h, n);
      QuorumToldMore(told, Ticked(h, n - 1), QuorumAt(c, h, n - 1), QuorumAt(c, h, n),
                     ResultsOf(ReportOf(c, h, n - 1), QUORUM_SUBJECT));
    }
  }

  lemma TickedStep(h: seq<Event>, n: nat)
    requires 0 < n <= |h|
    ensures Ticked(h, n) <==> Ticked(h, n - 1) || h[n - 1].Tick?
  {
    if h[n - 1].Tick? {
      assert 0 <= n - 1 < n && h[n - 1].Tick?;
    }
  }

  lemma BeatReportsNothing(c: Setup, h: seq<Event>, i: nat)
    requires i < |h| && h[i].Beat?
    ensures ResultsOf(ReportOf(c, h, i), QUORUM_SUBJECT) == []
  {
  }

  /** A service call reports quorum exactly when it differs from the last quorum result. */
  lemma QuorumReportComparesWithLast(c: Setup, h: seq<Event>, n: nat)
    requires WellNamed(c) && 0 < n <= |h| && h[n - 1].Tick?
    ensures var told := ResultsOf(ReportsAt(c, h, n - 1), QUORUM_SUBJECT);
            var now := ResultsOf(ReportOf(c, h, n - 1), QUORUM_SUBJECT);
            && (now == [] <==> told != [] && told[|told| - 1].state == QuorumAt(c, h, n))
            && (now != [] ==> |now| == 1 && now[0].state == QuorumAt(c, h, n))
  {
    hide *;
    ReportOfQuorum(c, h, n - 1);
    RemembersReports(c, h, n - 1);
    LastStatesAreLatest(map[], ReportsAt(c, h, n - 1), QUORUM_SUBJECT);
    QuorumReportOnTick(c, h, n);
  }

  lemma QuorumReportOnTick(c: Setup, h: seq<Event>, n: nat)
    requires 0 < n <= |h| && h[n - 1].Tick?
    ensures var s, now := StateAt(c, h, n - 1), h[n - 1].at;
            var report := QuorumReport(s.(peers := ObservedPeers(s.peers, now)), now);
            && (report == [] <==> QUORUM_SUBJECT in s.lastPublished
                                  && s.lastPublished[QUORUM_SUBJECT] == QuorumAt(c, h, n))
            && (report != [] ==> |report| == 1 && report[0].state == QuorumAt(c, h, n))
  {
    hide Observed, ObservedPeers, LiveCount, TickResults, LastStates;
    StateAfterTick(c, h, n);
  }

  lemma StateAfterTick(c: Setup, h: seq<Event>, n: nat)
    requires 0 < n <= |h| && h[n - 1].Tick?
    ensures StateAt(c, h, n) == OnTick(StateAt(c, h, n - 1), h[n - 1].at)
  {
  }

  lemma QuorumToldMore(told: seq<CheckResult>, ticked: bool, before: HealthState, after: HealthState,
                       now: seq<CheckResult>)
    requires TellsQuorum(told, ticked, before)
    requires now == [] <==> told != [] && told[|told| - 1].state == after
    requires now != [] ==> |now| == 1 && now[0].state == after
    ensures TellsQuorum(told + now, true, after)
  {
    var more := told + now;
    assert forall i :: 0 <= i < |told| ==> more[i] == told[i];
  }

  // ----- Peers share the quorum's memory -----

  /**
   A peer named like the quorum subject shares its entry among the last published states, and
   then some short history breaks the quorum stream: the peer expires, beats and recovers.
   */
  lemma PeerNamedQuorumBreaksStream(c: Setup) returns (h: seq<Event>, n: nat)
    requires ListsPeers(c) && QUORUM_SUBJECT in c.created && c.timeout > 0.0
    ensures ClockOrdered(c, h) && n <= |h|
    ensures !TellsQuorum(ResultsOf(ReportsAt(c, h, n), QUORUM_SUBJECT), Ticked(h, n), QuorumAt(c, h, n))
  {
    hide StateAt, ReportOf, ReportsAt, ResultsOf, QuorumAt, Ticked;
    var late := LaterThanAll(c.created, c.order) + c.timeout + 1.0;
    h := [Tick(late), Beat(QUORUM_SUBJECT, Missing, late), Tick(late)];
    var first := ResultsOf(ReportOf(c, h, 0), QUORUM_SUBJECT);
    var third := ResultsOf(ReportOf(c, h, 2), QUORUM_SUBJECT);
    LostThenRestored(c, h, late);
    n := 3;
    ReportsOfThree(c, h);
    var told := ResultsOf(ReportsAt(c, h, 3), QUORUM_SUBJECT);
    assert told[0] == first[0] && told[1] == first[1] && told[2] == third[0];
  }

  lemma {:induction false} ReportsOfThree(c: Setup, h: seq<Event>)
    requires |h| == 3 && h[1].Beat?
    ensures ResultsOf(ReportsAt(c, h, 3), QUORUM_SUBJECT)
         == ResultsOf(ReportOf(c, h, 0), QUORUM_SUBJECT) + ResultsOf(ReportOf(c, h, 2), QUORUM_SUBJECT)
  {
    hide ReportOf;
    ReportsStep(c, h, 1);
    ReportsStep(c, h, 2);
    ReportsStep(c, h, 3);
    BeatReportsNothing(c, h, 1);
    ResultsOfConcat([], ReportOf(c, h, 0), QUORUM_SUBJECT);
    ResultsOfConcat(ReportsAt(c, h, 1), ReportOf(c, h, 1), QUORUM_SUBJECT);
    ResultsOfConcat(ReportsAt(c, h, 2), ReportOf(c, h, 2), QUORUM_SUBJECT);
  }

  lemma LostThenRestored(c: Setup, h: seq<Event>, late: real)
    requires ListsPeers(c) && QUORUM_SUBJECT in c.created && c.timeout > 0.0
    requires late > c.created[QUORUM_SUBJECT] + c.timeout
    requires h == [Tick(late), Beat(QUORUM_SUBJECT, Missing, late), Tick(late)]
    ensures var first := ResultsOf(ReportOf(c, h, 0), QUORUM_SUBJECT);
            |first| == 2 && first[0].state == Fault && first[1].state in {Ok, Fault}
    ensures var third := ResultsOf(ReportOf(c, h, 2), QUORUM_SUBJECT);
            |third| >= 1 && third[0].state == Ok
  {
    hide LiveCount, ObservedPeers, Transitions, ReportsAt, LastStates, ReportOf, ResultsOf, ListsPeers;
    SharedReport(c, h, 0);
    SharedReport(c, h, 2);
    PeerAtStep(c, h, QUORUM_SUBJECT, 1);
    PeerAtStep(c, h, QUORUM_SUBJECT, 2);
  }

  /** With a peer named so, the quorum subject's results are the peer's, then the quorum's. */
  lemma SharedReport(c: Setup, h: seq<Event>, i: nat)
    requires ListsPeers(c) && QUORUM_SUBJECT in c.created && i < |h| && h[i].Tick?
    ensures var s, now := StateAt(c, h, i), h[i].at;
            ResultsOf(ReportOf(c, h, i), QUORUM_SUBJECT)
            == Transition(QUORUM_SUBJECT, PeerAt(c, h, QUORUM_SUBJECT, i), now)
               + QuorumReport(s.(peers := ObservedPeers(s.peers, now)), now)
  {
    hide StateAt, ObservedPeers, LiveCount, Transition, PeerAt, QuorumReport, ResultsOf, AtMostOneAbout;
    var s, now := StateAt(c, h, i), h[i].at;
    var quorum := QuorumReport(s.(peers := ObservedPeers(s.peers, now)), now);
    PeersAreIndependent(c, h, QUORUM_SUBJECT, i);
    TransitionsOfPeer(s.order, s.peers, now, QUORUM_SUBJECT);
    ResultsOfConcat(Transitions(s.order, s.peers, now), quorum, QUORUM_SUBJECT);
    QuorumReportIsAboutQuorum(s.(peers := ObservedPeers(s.peers, now)), now);
    ResultsOfTransition(quorum, QUORUM_SUBJECT, QUORUM_SUBJECT);
  }

  function LaterThanAll(created: map<string, real>, order: seq<string>): (t: real)
    ensures forall n :: n in order && n in created ==> created[n] <= t
  {
    if order == [] then 0.0
    else
      var n := order[|order| - 1];
      var t := LaterThanAll(created, order[..|order| - 1]);
      if n in created then Max(t, created[n]) else t
  }

  /** The quorum stream is right for every history exactly when no peer is named like the quorum subject. */
  lemma QuorumStreamSoundIffNameFree(c: Setup)
    requires ListsPeers(c) && c.timeout > 0.0
    ensures (forall h, n: nat :: n <= |h| && ClockOrdered(c, h) ==>
               TellsQuorum(ResultsOf(ReportsAt(c, h, n), QUORUM_SUBJECT), Ticked(h, n), QuorumAt(c, h, n)))
            <==> QUORUM_SUBJECT !in c.created
  {
    hide TellsQuorum, ClockOrdered, ReportsAt, ResultsOf, Ticked, QuorumAt, ListsPeers;
    if QUORUM_SUBJECT in c.created {
      var h, n := PeerNamedQuorumBreaksStream(c);
    } else {
      forall h, n: nat | n <= |h| && ClockOrdered(c, h)
        ensures TellsQuorum(ResultsOf(ReportsAt(c, h, n), QUORUM_SUBJECT), Ticked(h, n), QuorumAt(c, h, n))
      {
        QuorumResultsAreCurrent(c, h, n);
      }
    }
  }

  // ----- A quorum change is always explained by a peer -----

  lemma {:induction false} CountMovesWithPeers(order: seq<string>, peers: map<string, Peer>, now: real)
    ensures LiveCount(order, ObservedPeers(peers, now)) > LiveCount(order, peers) ==>
              exists r :: r in Transitions(order, peers, now) && r.state == Ok
    ensures LiveCount(order, ObservedPeers(peers, now)) < LiveCount(order, peers) ==>
              exists r :: r in Transitions(order, peers, now) && r.state == Fault
  {
    if order != [] {
      var front, last := order[..|order| - 1], order[|order| - 1];
      CountMovesWithPeers(front, peers, now);
      var earlier := Transitions(front, peers, now);
      var mine := if last in peers then Transition(last, peers[last], now) else [];
      assert forall r :: r in earlier ==> r in earlier + mine;
      if last in peers && peers[last].live != Observed(peers[last], now).live {
        assert mine[0] in earlier + mine;
      }
    }
  }

  /**
   After the first service call, a quorum result is always accompanied, in the same call, by a
   peer result of the same state: quorum is lost only when a peer is lost, regained only when
   one is restored.
   */
  lemma QuorumChangeHasPeer(c: Setup, h: seq<Event>, i: nat)
    requires WellNamed(c) && i < |h| && h[i].Tick? && Ticked(h, i)
    ensures forall q :: q in ResultsOf(ReportOf(c, h, i), QUORUM_SUBJECT) ==>
                          exists r :: r in ReportOf(c, h, i) && r.subject != QUORUM_SUBJECT && r.state == q.state
  {
    var s, now := StateAt(c, h, i), h[i].at;
    ReportOfQuorum(c, h, i);
    QuorumResultsAreCurrent(c, h, i);
    RemembersReports(c, h, i);
    LastStatesAreLatest(map[], ReportsAt(c, h, i), QUORUM_SUBJECT);
    CountMovesWithPeers(s.order, s.peers, now);
    TransitionsNameTheirPeers(s.order, s.peers, now);
    forall q | q in ResultsOf(ReportOf(c, h, i), QUORUM_SUBJECT)
      ensures exists r :: r in ReportOf(c, h, i) && r.subject != QUORUM_SUBJECT && r.state == q.state
    {
      var r :| r in Transitions(s.order, s.peers, now) && r.state == q.state;
      assert r in ReportOf(c, h, i);
    }
  }

  lemma {:induction false} TransitionsNameTheirPeers(order: seq<string>, peers: map<string, Peer>, now: real)
    ensures forall r :: r in Transitions(order, peers, now) ==> r.subject in peers
  {
    if order != [] {
      TransitionsNameTheirPeers(order[..|order| - 1], peers, now);
    }
  }

  // ----- Faults are conserved -----

  function TotalLosses(order: seq<string>, peers: map<string, Peer>): nat {
    if order == [] then 0
    else
      var n := order[|order| - 1];
      TotalLosses(order[..|order| - 1], peers) + if n in peers then peers[n].losses else 0
  }

  lemma {:induction false} TransitionsCountLosses(order: seq<string>, peers: map<string, Peer>, now: real)
    ensures TotalLosses(order, ObservedPeers(peers, now))
         == TotalLosses(order, peers) + CountState(Transitions(order, peers, now), Fault)
  {
    if order != [] {
      var front, last := order[..|order| - 1], order[|order| - 1];
      TransitionsCountLosses(front, peers, now);
      var mine := if last in peers then Transition(last, peers[last], now) else [];
      CountStateConcat(Transitions(front, peers, now), mine, Fault);
      if mine != [] {
        assert mine[..|mine| - 1] == [];
      }
    }
  }

  lemma {:induction false} SameLossesSameTotal(order: seq<string>, a: map<string, Peer>, b: map<string, Peer>)
    requires a.Keys == b.Keys && forall p :: p in a ==> a[p].losses == b[p].losses
    ensures TotalLosses(order, a) == TotalLosses(order, b)
  {
    if order != [] {
      SameLossesSameTotal(order[..|order| - 1], a, b);
    }
  }

  lemma FaultsStep(c: Setup, h: seq<Event>, i: nat)
    requires WellNamed(c) && i < |h|
    ensures CountState(ReportOf(c, h, i), Fault) + TotalLosses(c.order, StateAt(c, h, i).peers)
         == TotalLosses(c.order, StateAt(c, h, i + 1).peers)
            + CountState(ResultsOf(ReportOf(c, h, i), QUORUM_SUBJECT), Fault)
  {
    var s, now := StateAt(c, h, i), h[i].at;
    if h[i].Beat? {
      SameLossesSameTotal(c.order, s.peers, StateAt(c, h, i + 1).peers);
    } else {
      ReportOfQuorum(c, h, i);
      TransitionsCountLosses(c.order, s.peers, now);
      CountStateConcat(Transitions(s.order, s.peers, now),
                       QuorumReport(s.(peers := ObservedPeers(s.peers, now)), now), Fault);
    }
  }

  /** The check's own call history: one call per tick, with the slots its timer had missed then. */
  ghost function CallsAt(c: Setup, h: seq<Event>, n: nat, missedSlots: nat -> nat): seq<Call>
    requires n <= |h|
  {
    if n == 0 then []
    else
      CallsAt(c, h, n - 1, missedSlots)
      + if h[n - 1].Tick? then [Reported(ReportOf(c, h, n - 1), missedSlots(n - 1))] else []
  }

  lemma {:induction false} CallsCarryReports(c: Setup, h: seq<Event>, n: nat, missedSlots: nat -> nat)
    requires n <= |h|
    ensures AllResults(CallsAt(c, h, n, missedSlots)) == ReportsAt(c, h, n)
  {
    hide TickResults, StateAt;
    if n > 0 {
      CallsCarryReports(c, h, n - 1, missedSlots);
      var before := CallsAt(c, h, n - 1, missedSlots);
      if h[n - 1].Tick? {
        var call := Reported(ReportOf(c, h, n - 1), missedSlots(n - 1));
        assert (before + [call])[..|before|] == before;
      } else {
        assert before + [] == before;
      }
    }
  }

  /**
   Every FAULT ever reported is one peer loss or one quorum loss, so after any history the check's
   fault counter is the sum of all peers' losses plus the quorum FAULTs, and it has counted one run
   per result, whatever slots were missed.
   */
  lemma FaultsAreConserved(c: Setup, h: seq<Event>, n: nat, missedSlots: nat -> nat)
    requires WellNamed(c) && n <= |h|
    ensures var stats := StatsAfter(CallsAt(c, h, n, missedSlots));
            && stats.faults == TotalLosses(c.order, StateAt(c, h, n).peers)
                               + CountState(ResultsOf(ReportsAt(c, h, n), QUORUM_SUBJECT), Fault)
            && stats.runs == |ReportsAt(c, h, n)|
  {
    hide *;
    CallsCarryReports(c, h, n, missedSlots);
    StatsSummariseHistory(CallsAt(c, h, n, missedSlots));
    FaultCountSplits(c, h, n);
  }

  lemma {:induction false} FaultCountSplits(c: Setup, h: seq<Event>, n: nat)
    requires WellNamed(c) && n <= |h|
    ensures CountState(ReportsAt(c, h, n), Fault)
         == TotalLosses(c.order, StateAt(c, h, n).peers)
            + CountState(ResultsOf(ReportsAt(c, h, n), QUORUM_SUBJECT), Fault)
  {
    hide *;
    if n == 0 {
      NoFaultsAtFirst(c, h);
    } else {
      FaultCountSplits(c, h, n - 1);
      FaultsStep(c, h, n - 1);
      var before, more := ReportsAt(c, h, n - 1), ReportOf(c, h, n - 1);
      ReportsStep(c, h, n);
      CountStateConcat(before, more, Fault);
      ResultsOfConcat(before, more, QUORUM_SUBJECT);
      CountStateConcat(ResultsOf(before, QUORUM_SUBJECT), ResultsOf(more, QUORUM_SUBJECT), Fault);
    }
  }

  lemma NoFaultsAtFirst(c: Setup, h: seq<Event>)
    ensures CountState(ReportsAt(c, h, 0), Fault) == 0
    ensures TotalLosses(c.order, StateAt(c, h, 0).peers) == 0
    ensures CountState(ResultsOf(ReportsAt(c, h, 0), QUORUM_SUBJECT), Fault) == 0
  {
    NoLossesAtFirst(c, c.order);
  }

  lemma ReportsStep(c: Setup, h: seq<Event>, n: nat)
    requires 0 < n <= |h|
    ensures ReportsAt(c, h, n) == ReportsAt(c, h, n - 1) + ReportOf(c, h, n - 1)
  {
  }

  lemma {:induction false} NoLossesAtFirst(c: Setup, order: seq<string>)
    ensures TotalLosses(order, Initial(c).peers) == 0
  {
    if order != [] {
      NoLossesAtFirst(c, order[..|order| - 1]);
    }
  }
}
