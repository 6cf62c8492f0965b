/**
 When peers are and are not declared lost: the guarantees the timeout is chosen for.
 */
module PeerDelivery {
  import opened HealthTypes
  import opened IntervalTimers
  import opened MessageBuses
  import opened LivenessSpec
  import opened LivenessHistory
  import opened LivenessStreams

  /** At every service call, the peer's creation or an accepted beat is recent enough. */
  ghost predicate AlwaysHeard(c: Setup, h: seq<Event>, p: string)
    requires p in c.created
  {
    forall n :: 0 <= n < |h| && h[n].Tick? ==> HeardRecently(c, h, p, n, h[n].at)
  }

  /**
   A peer is reported about at all exactly when some service call finds neither its creation
   nor an accepted beat within the timeout.
   */
  lemma NeverLostIffAlwaysHeard(c: Setup, h: seq<Event>, p: string)
    requires OwnSubject(c, p) && ClockOrdered(c, h) && p in c.created
    ensures ResultsOf(ReportsAt(c, h, |h|), p) == [] <==> AlwaysHeard(c, h, p)
  {
    SilentStreamIffHeard(c, h, p, |h|);
  }

  lemma {:induction false} SilentStreamIffHeard(c: Setup, h: seq<Event>, p: string, n: nat)
    requires OwnSubject(c, p) && ClockOrdered(c, h) && p in c.created && n <= |h|
    ensures ResultsOf(ReportsAt(c, h, n), p) == [] <==>
            forall i :: 0 <= i < n && h[i].Tick? ==> HeardRecently(c, h, p, i, h[i].at)
  {
    hide *;
    if n == 0 {
      NothingReportedAtFirst(c, h, p);
    } else {
      SilentStreamIffHeard(c, h, p, n - 1);
      ReportsStep(c, h, n);
      ResultsOfConcat(ReportsAt(c, h, n - 1), ReportOf(c, h, n - 1), p);
      if ResultsOf(ReportsAt(c, h, n - 1), p) == [] {
        PeerResultsAlternate(c, h, p, n - 1);
        LiveWhileUnreported(ResultsOf(ReportsAt(c, h, n - 1), p), StateAt(c, h, n - 1).peers[p]);
        FirstReport(c, h, p, n - 1);
      }
    }
  }

  lemma NothingReportedAtFirst(c: Setup, h: seq<Event>, p: string)
    ensures ResultsOf(ReportsAt(c, h, 0), p) == []
  {
  }

  lemma LiveWhileUnreported(told: seq<CheckResult>, s: Peer)
    requires PeerStory(told, s) && told == []
    ensures s.live
  {
  }

  lemma FirstReport(c: Setup, h: seq<Event>, p: string, i: nat)
    requires OwnSubject(c, p) && ClockOrdered(c, h) && p in c.created && i < |h|
    requires StateAt(c, h, i).peers[p].live
    ensures ResultsOf(ReportOf(c, h, i), p) == [] <==> h[i].Beat? || HeardRecently(c, h, p, i, h[i].at)
  {
    hide TickResults, StateAt, PeerAt, ReportOf, Accepted;
    PeersAreIndependent(c, h, p, i);
    ReportOfPeer(c, h, i, p);
    if h[i].Tick? {
      PeerTracksHistory(c, h, p, i);
    }
  }

  // ----- Beacons over an unreliable order -----

  /**
   Beacon k of the peer is sent at start + k * every; whatever is received was sent, carries its
   number, and arrives no earlier than it was sent. Order, repetition and extra delay are free.
   */
  ghost predicate OnlySentBeacons(h: seq<Event>, p: string, start: real, every: real) {
    forall i :: IsBeat(h, p, i) ==> BeatNumber(h, i) >= 0 && h[i].at >= start + Times(BeatNumber(h, i), every)
  }

  /** Before each service call, every beacon from `first` on that is due at least `delay` earlier has arrived. */
  ghost predicate DeliveredWithin(h: seq<Event>, p: string, start: real, every: real, first: nat, delay: real) {
    forall n, k :: 0 <= n < |h| && h[n].Tick? && first <= k && start + Times(k, every) + delay <= h[n].at ==>
                     Arrived(h, p, n, k)
  }

  ghost predicate Arrived(h: seq<Event>, p: string, n: nat, k: int) {
    exists i :: 0 <= i < n && IsBeat(h, p, i) && BeatNumber(h, i) == k
  }

  /** Among the first n events, the first beat to carry the greatest number. */
  lemma {:induction false} FirstOfGreatest(h: seq<Event>, p: string, n: nat) returns (i: nat)
    requires n <= |h| && exists k :: 0 <= k < n && IsBeat(h, p, k)
    ensures i < n && IsBeat(h, p, i)
    ensures forall k :: 0 <= k < n && IsBeat(h, p, k) ==> BeatNumber(h, k) <= BeatNumber(h, i)
    ensures forall k :: 0 <= k < i && IsBeat(h, p, k) ==> BeatNumber(h, k) < BeatNumber(h, i)
  {
    if exists k :: 0 <= k < n - 1 && IsBeat(h, p, k) {
      i := FirstOfGreatest(h, p, n - 1);
      if IsBeat(h, p, n - 1) && BeatNumber(h, n - 1) > BeatNumber(h, i) {
        i := n - 1;
      }
    } else {
      i := n - 1;
    }
  }

  /**
   A peer that sends a fresh beacon every `every`, none from number `first` on delayed by more than
   timeout - every, is never declared lost if that first one is there within the timeout of the
   record's creation, even when beacons overtake each other or are repeated. What becomes of earlier
   beacons does not matter.
   */
  lemma TimelyBeaconsNeverLost(c: Setup, h: seq<Event>, p: string, start: real, every: real, first: nat, delay: real)
    requires OwnSubject(c, p) && ClockOrdered(c, h) && p in c.created
    requires every > 0.0 && 0.0 <= delay <= c.timeout - every
    requires start + Times(first, every) + delay <= c.created[p] + c.timeout
    requires OnlySentBeacons(h, p, start, every) && DeliveredWithin(h, p, start, every, first, delay)
    ensures ResultsOf(ReportsAt(c, h, |h|), p) == []
  {
    forall n | 0 <= n < |h| && h[n].Tick?
      ensures HeardRecently(c, h, p, n, h[n].at)
    {
      HeardThroughBeacons(c, h, p, n, start, every, first, delay);
    }
    NeverLostIffAlwaysHeard(c, h, p);
  }

  lemma HeardThroughBeacons(c: Setup, h: seq<Event>, p: string, n: nat, start: real, every: real, first: nat,
                            delay: real)
    requires p in c.created && n < |h| && h[n].Tick?
    requires every > 0.0 && 0.0 <= delay <= c.timeout - every
    requires start + Times(first, every) + delay <= c.created[p] + c.timeout
    requires OnlySentBeacons(h, p, start, every) && DeliveredWithin(h, p, start, every, first, delay)
    ensures HeardRecently(c, h, p, n, h[n].at)
  {
    hide Times, Accepted, IsBeat;
    var now := h[n].at;
    if now >= start + Times(first, every) + delay {
      var k := LatestDue(now - delay - start, every, first);
      assert Arrived(h, p, n, k);
      var i := GreatestIsAccepted(h, p, n, k);
      TimesGrows(k, BeatNumber(h, i), every);
    }
  }

  /** The last of the beacons due within a span, one of them at least being number `first`. */
  lemma LatestDue(span: real, every: real, first: nat) returns (k: nat)
    requires every > 0.0 && span >= Times(first, every)
    ensures k >= first && Times(k, every) <= span < Times(k, every) + every
  {
    hide WholePeriods;
    ZeroTimes(every);
    TimesGrows(0, first, every);
    WholePeriodsAtLeast(span, every, first);
    k := WholePeriods(span, every);
    WholePeriodsAtLeast(span, every, k);
    WholePeriodsAtLeast(span, every, k + 1);
    TimesAdd(k, 1, every);
  }

  lemma GreatestIsAccepted(h: seq<Event>, p: string, n: nat, k: nat) returns (i: nat)
    requires n <= |h| && Arrived(h, p, n, k)
    ensures i < n && IsBeat(h, p, i) && Accepted(h, p, i) && BeatNumber(h, i) >= k
  {
    i := FirstOfGreatest(h, p, n);
    assert Accepted(h, p, i);
  }

  /** The peer is never reported about, whatever history its beacons and their delays make. */
  ghost predicate NeverLostWithin(c: Setup, p: string, start: real, every: real, delay: real) {
    forall h :: ClockOrdered(c, h) && OnlySentBeacons(h, p, start, every)
                && DeliveredWithin(h, p, start, every, 0, delay) ==>
                  ResultsOf(ReportsAt(c, h, |h|), p) == []
  }

  /**
   The margin is exact: beacons sent every `every`, the first no later than that after the record is
   created, and each delayed by up to `delay`, can never lose the peer exactly when `delay` is no more
   than timeout - every.
   */
  lemma NeverLostWithinIffMargin(c: Setup, p: string, start: real, every: real, delay: real)
    requires OwnSubject(c, p) && p in c.created && c.timeout > 0.0
    requires every > 0.0 && delay >= 0.0 && start <= c.created[p] + every
    ensures NeverLostWithin(c, p, start, every, delay) <==> delay <= c.timeout - every
  {
    hide ClockOrdered, OnlySentBeacons, DeliveredWithin, DeliveredButOne, ReportsAt, ResultsOf;
    ZeroTimes(every);
    if delay <= c.timeout - every {
      forall h | && ClockOrdered(c, h) && OnlySentBeacons(h, p, start, every)
                 && DeliveredWithin(h, p, start, every, 0, delay)
        ensures ResultsOf(ReportsAt(c, h, |h|), p) == []
      {
        TimelyBeaconsNeverLost(c, h, p, start, every, 0, delay);
      }
    } else {
      var h, m := OneLateBeaconLosesPeer(c, p, start, every, delay, delay);
      AllWithin(h, p, start, every, m, delay, delay);
    }
  }

  // ----- A single late beacon -----

  /**
   Before each service call, beacon m has arrived if it is due at least `late` earlier, and every
   other beacon if it is due at least `delay` earlier.
   */
  ghost predicate DeliveredButOne(h: seq<Event>, p: string, start: real, every: real, m: nat, delay: real, late: real) {
    forall n, k :: && 0 <= n < |h| && h[n].Tick? && 0 <= k
                   && start + Times(k, every) + (if k == m then late else delay) <= h[n].at ==>
                     Arrived(h, p, n, k)
  }

  /** The peer is never reported about, whichever one of its beacons is late. */
  ghost predicate NeverLostByOneLate(c: Setup, p: string, start: real, every: real, delay: real, late: real) {
    forall h, m: nat :: ClockOrdered(c, h) && OnlySentBeacons(h, p, start, every)
                        && DeliveredButOne(h, p, start, every, m, delay, late) ==>
                          ResultsOf(ReportsAt(c, h, |h|), p) == []
  }

  lemma AllWithin(h: seq<Event>, p: string, start: real, every: real, m: nat, delay: real, late: real)
    requires DeliveredButOne(h, p, start, every, m, delay, late) && delay <= late
    ensures DeliveredWithin(h, p, start, every, 0, late)
  {
    hide Times, Arrived;
  }

  /** If the beacon before the late one still covers the gap, the late one is not missed. */
  lemma HeardDespiteOne(c: Setup, h: seq<Event>, p: string, n: nat, start: real, every: real, m: nat,
                        delay: real, late: real)
    requires p in c.created && n < |h| && h[n].Tick? && every > 0.0 && delay >= 0.0
    requires 2.0 * every + delay <= c.timeout && start <= c.created[p] + every
    requires OnlySentBeacons(h, p, start, every) && DeliveredButOne(h, p, start, every, m, delay, late)
    ensures HeardRecently(c, h, p, n, h[n].at)
  {
    hide Times, Accepted, IsBeat;
    var now := h[n].at;
    ZeroTimes(every);
    if now >= start + delay {
      var latest := LatestDue(now - delay - start, every, 0);
      OnceIsWhole(every);
      if latest != m || m > 0 {
        var k: nat := if latest == m then latest - 1 else latest;
        TimesAdd(k, 1, every);
        assert Arrived(h, p, n, k);
        var i := GreatestIsAccepted(h, p, n, k);
        TimesGrows(k, BeatNumber(h, i), every);
      }
    }
  }

  /**
   Otherwise it is: beacons 0 to `last` arrive by `heard`, when the last of them is sent, and at
   `now` the next is late, the one after it not yet overdue.
   */
  function LateBeaconHistory(p: string, last: nat, heard: real, now: real): seq<Event> {
    seq(last + 1, k => Beat(p, Number(k), heard)) + [Tick(now)]
  }

  lemma OneLateBeaconLosesPeer(c: Setup, p: string, start: real, every: real, delay: real, late: real)
      returns (h: seq<Event>, m: nat)
    requires OwnSubject(c, p) && p in c.created && c.timeout > 0.0 && every > 0.0
    requires every + late > c.timeout && 2.0 * every + delay > c.timeout
    ensures ClockOrdered(c, h) && OnlySentBeacons(h, p, start, every)
    ensures DeliveredButOne(h, p, start, every, m, delay, late)
    ensures ResultsOf(ReportsAt(c, h, |h|), p) != []
  {
    hide WholePeriods, ReportsAt, Times, OnlySentBeacons, DeliveredButOne;
    var latest := LaterThanAll(c.created, c.order);
    ZeroTimes(every);
    var last: nat := 0;
    if latest > start {
      WholePeriodsAtLeast(latest - start, every, 0);
      last := WholePeriods(latest - start, every) + 1;
      WholePeriodsAtLeast(latest - start, every, last);
    }
    var heard := start + Times(last, every);
    var now := heard + (c.timeout + Min(every + late, 2.0 * every + delay)) / 2.0;
    h, m := LateBeaconHistory(p, last, heard, now), last + 1;
    LateBeaconHistoryIsFair(h, p, last, heard, now, start, every, delay, late);
    assert ClockOrdered(c, h);
    assert !HeardRecently(c, h, p, last + 1, h[last + 1].at);
    NeverLostIffAlwaysHeard(c, h, p);
  }

  lemma LateBeaconHistoryIsFair(h: seq<Event>, p: string, last: nat, heard: real, now: real,
                                start: real, every: real, delay: real, late: real)
    requires h == LateBeaconHistory(p, last, heard, now) && heard == start + Times(last, every)
    requires every > 0.0 && now < heard + every + late && now < heard + 2.0 * every + delay
    ensures OnlySentBeacons(h, p, start, every) && DeliveredButOne(h, p, start, every, last + 1, delay, late)
  {
    hide Times;
    forall i | IsBeat(h, p, i)
      ensures BeatNumber(h, i) >= 0 && h[i].at >= start + Times(BeatNumber(h, i), every)
    {
      TimesGrows(BeatNumber(h, i), last, every);
    }
    forall n, k | && 0 <= n < |h| && h[n].Tick? && 0 <= k
                  && start + Times(k, every) + (if k == last + 1 then late else delay) <= h[n].at
      ensures Arrived(h, p, n, k)
    {
      TimesAdd(last, 1, every);
      TimesAdd(last + 1, 1, every);
      OnceIsWhole(every);
      if k > last + 1 {
        TimesGrows(last + 2, k, every);
      } else if k <= last {
        assert IsBeat(h, p, k) && BeatNumber(h, k) == k;
      }
    }
  }

  /**
   What one late beacon does, the others being delayed by up to `delay`: a lateness of up to `late`
   never loses the peer exactly when the timeout covers the period and that lateness, or two periods
   and the others' delay.
   */
  lemma NeverLostByOneLateIff(c: Setup, p: string, start: real, every: real, delay: real, late: real)
    requires OwnSubject(c, p) && p in c.created && c.timeout > 0.0
    requires every > 0.0 && 0.0 <= delay <= late && start <= c.created[p] + every
    ensures NeverLostByOneLate(c, p, start, every, delay, late)
            <==> every + late <= c.timeout || 2.0 * every + delay <= c.timeout
  {
    hide ClockOrdered, OnlySentBeacons, DeliveredWithin, DeliveredButOne, ReportsAt, ResultsOf, HeardRecently;
    ZeroTimes(every);
    if every + late <= c.timeout || 2.0 * every + delay <= c.timeout {
      forall h, m: nat | && ClockOrdered(c, h) && OnlySentBeacons(h, p, start, every)
                         && DeliveredButOne(h, p, start, every, m, delay, late)
        ensures ResultsOf(ReportsAt(c, h, |h|), p) == []
      {
        OneLateBeaconCovered(c, h, p, start, every, m, delay, late);
      }
    } else {
      var h, m := OneLateBeaconLosesPeer(c, p, start, every, delay, late);
    }
  }

  lemma OneLateBeaconCovered(c: Setup, h: seq<Event>, p: string, start: real, every: real, m: nat,
                             delay: real, late: real)
    requires OwnSubject(c, p) && ClockOrdered(c, h) && p in c.created
    requires every > 0.0 && 0.0 <= delay <= late && start <= c.created[p] + every
    requires every + late <= c.timeout || 2.0 * every + delay <= c.timeout
    requires OnlySentBeacons(h, p, start, every) && DeliveredButOne(h, p, start, every, m, delay, late)
    ensures ResultsOf(ReportsAt(c, h, |h|), p) == []
  {
    hide ClockOrdered, OnlySentBeacons, DeliveredWithin, DeliveredButOne, ReportsAt, ResultsOf, HeardRecently;
    ZeroTimes(every);
    if every + late <= c.timeout {
      AllWithin(h, p, start, every, m, delay, late);
      TimelyBeaconsNeverLost(c, h, p, start, every, 0, late);
    } else {
      forall n | 0 <= n < |h| && h[n].Tick?
        ensures HeardRecently(c, h, p, n, h[n].at)
      {
        HeardDespiteOne(c, h, p, n, start, every, m, delay, late);
      }
      NeverLostIffAlwaysHeard(c, h, p);
    }
  }

  /**
   The rule the configuration enforces, timeout > period, is not enough for a single late heartbeat:
   one beacon of any lateness, the others being delayed by up to `delay`, never loses the peer exactly
   when the timeout covers two periods and that delay; with the others on time, two periods.
   */
  lemma AnyLatenessHarmlessIff(c: Setup, p: string, start: real, every: real, delay: real)
    requires OwnSubject(c, p) && p in c.created && c.timeout > 0.0
    requires every > 0.0 && delay >= 0.0 && start <= c.created[p] + every
    ensures (forall late :: late >= delay ==> NeverLostByOneLate(c, p, start, every, delay, late))
            <==> 2.0 * every + delay <= c.timeout
  {
    hide NeverLostByOneLate;
    forall late | late >= delay
      ensures NeverLostByOneLate(c, p, start, every, delay, late)
              <==> every + late <= c.timeout || 2.0 * every + delay <= c.timeout
    {
      NeverLostByOneLateIff(c, p, start, every, delay, late);
    }
    var late := Max(delay, c.timeout);
    assert NeverLostByOneLate(c, p, start, every, delay, late) ==> 2.0 * every + delay <= c.timeout;
  }

  /**
   A silence longer than the timeout that ends before the next service call leaves no trace: the peer
   would have been found lost just before its beat, and is never reported about.
   */
  lemma GapBetweenCallsUnreported(c: Setup, p: string) returns (h: seq<Event>, late: real)
    requires OwnSubject(c, p) && p in c.created && c.timeout > 0.0
    ensures ClockOrdered(c, h) && |h| == 2 && h[0] == Beat(p, Missing, late) && h[1] == Tick(late)
    ensures !HeardRecently(c, h, p, 0, late)
    ensures ResultsOf(ReportsAt(c, [Tick(late)], 1), p) != []
    ensures ResultsOf(ReportsAt(c, h, |h|), p) == []
  {
    hide ReportsAt, ResultsOf;
    late := LaterThanAll(c.created, c.order) + c.timeout + 1.0;
    h := [Beat(p, Missing, late), Tick(late)];
    assert IsBeat(h, p, 0) && Accepted(h, p, 0);
    assert HeardRecently(c, h, p, 1, late);
    NeverLostIffAlwaysHeard(c, h, p);
    var without := [Tick(late)];
    assert !HeardRecently(c, without, p, 0, without[0].at);
    NeverLostIffAlwaysHeard(c, without, p);
  }

  // ----- Silence is reported -----

  /**
   The peer was last heard at r: that is its creation or an accepted beat, and nothing later
   counts before event n.
   */
  ghost predicate LastHeard(c: Setup, h: seq<Event>, p: string, n: nat, r: real)
    requires p in c.created
  {
    && c.created[p] <= r
    && (forall i :: 0 <= i < n && Accepted(h, p, i) ==> h[i].at <= r)
    && (r == c.created[p] || exists i :: 0 <= i < n && Accepted(h, p, i) && h[i].at == r)
  }

  /**
   Between two consecutive service calls i0 < i1, a peer last heard at r before the first is
   reported at the second, as one FAULT, exactly when the timeout passes between the two.
   */
  lemma SilenceReportedOnce(c: Setup, h: seq<Event>, p: string, r: real, i0: nat, i1: nat)
    requires OwnSubject(c, p) && ClockOrdered(c, h) && p in c.created
    requires Consecutive(h, i0, i1)
    requires LastHeard(c, h, p, i0, r) && LastHeard(c, h, p, i1, r)
    ensures ReportsLoss(c, h, p, i1, h[i0].at <= r + c.timeout < h[i1].at)
  {
    hide TickResults, ReportOf, Accepted;
    AnchorIsLastHeard(c, h, p, i0, r);
    AnchorIsLastHeard(c, h, p, i1, r);
    PeerAtStep(c, h, p, i0 + 1);
    LivenessKeptByBeats(c, h, p, i0 + 1, i1);
    ReportOfPeer(c, h, i1, p);
  }

  /** Two service calls with only beats between them. */
  ghost predicate Consecutive(h: seq<Event>, i0: nat, i1: nat) {
    && i0 < i1 < |h| && h[i0].Tick? && h[i1].Tick?
    && forall i :: i0 < i < i1 ==> h[i].Beat?
  }

  /** What service call i says about the peer: one FAULT if `lost`, otherwise nothing. */
  ghost predicate ReportsLoss(c: Setup, h: seq<Event>, p: string, i: nat, lost: bool)
    requires i < |h|
  {
    var told := ResultsOf(ReportOf(c, h, i), p);
    if lost then |told| == 1 && told[0].state == Fault && told[0].at == h[i].at else told == []
  }

  lemma AnchorIsLastHeard(c: Setup, h: seq<Event>, p: string, n: nat, r: real)
    requires ClockOrdered(c, h) && p in c.created && n <= |h| && LastHeard(c, h, p, n, r)
    ensures PeerAt(c, h, p, n).timer.lastRefresh == r
  {
    hide PeerAt, Accepted, IsRunningMaximum, AcceptedCount;
    PeerTracksHistory(c, h, p, n);
  }

  lemma {:induction false} LivenessKeptByBeats(c: Setup, h: seq<Event>, p: string, a: nat, b: nat)
    requires p in c.created && a <= b <= |h| && forall i :: a <= i < b ==> h[i].Beat?
    ensures PeerAt(c, h, p, b).live == PeerAt(c, h, p, a).live
  {
    if a < b {
      LivenessKeptByBeats(c, h, p, a, b - 1);
    }
  }
}
