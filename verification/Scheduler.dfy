/**
 The control loop as a scheduler (src/health_monitor/service.py): a round polls every check once
 and is followed by a sleep of the least remaining wait, or a loop period if that is shorter. Each
 check is its cadence timer; that a service call acknowledges exactly the due slots is proved of
 every check in its own module.

 A round is described by the clock readings taken in it. `work` bounds a round's duration from
 waking up to going to sleep; sleeping is exact.
 */
module Scheduler {
  import opened IntervalTimers

  datatype Round = Round(wake: real, polls: seq<real>, readings: seq<real>, end: real)

  /** Every check is polled after waking, every sleep reading follows every poll, and the round is short. */
  ghost predicate Paced(r: Round, checks: nat, work: real) {
    && |r.polls| == checks && |r.readings| == checks
    && (forall k :: 0 <= k < checks ==> r.wake <= r.polls[k])
    && (forall k, l :: 0 <= k < checks && 0 <= l < checks ==> r.polls[k] <= r.readings[l])
    && (forall k :: 0 <= k < checks ==> r.readings[k] <= r.end)
    && r.wake <= r.end <= r.wake + work
  }

  function ServeAll(ts: seq<Timer>, polls: seq<real>): (served: seq<Timer>)
    requires |polls| == |ts|
  {
    seq(|ts|, k requires 0 <= k < |ts| => ts[k].Served(polls[k]))
  }

  /** The nearest due instant among the checks, capped at the loop period. */
  function Soonest(loopPeriod: real, ts: seq<Timer>, readings: seq<real>): real
    requires |readings| == |ts|
  {
    if ts == [] then loopPeriod
    else
      var last := |ts| - 1;
      Min(Soonest(loopPeriod, ts[..last], readings[..last]), ts[last].SecondsUntilDue(readings[last]))
  }

  function SleepFor(loopPeriod: real, ts: seq<Timer>, readings: seq<real>): real
    requires |readings| == |ts|
  {
    Max(0.0, Min(Soonest(loopPeriod, ts, readings), loopPeriod))
  }

  /** A whole run: rounds of `work` at most, each starting when the sleep of the one before ends. */
  datatype Run = Run(loopPeriod: real, work: real, initial: seq<Timer>, rounds: seq<Round>)

  ghost function TimersAt(run: Run, i: nat): (ts: seq<Timer>)
    requires i <= |run.rounds|
    ensures |ts| == |run.initial|
    ensures forall k :: 0 <= k < |ts| ==> ts[k].period == run.initial[k].period
  {
    if i == 0 then run.initial
    else
      var before := TimersAt(run, i - 1);
      if |run.rounds[i - 1].polls| != |before| then before else ServeAll(before, run.rounds[i - 1].polls)
  }

  ghost predicate Legal(run: Run) {
    && run.loopPeriod > 0.0 && run.work >= 0.0
    && (forall k :: 0 <= k < |run.initial| ==> run.initial[k].period > 0.0)
    && (forall i :: 0 <= i < |run.rounds| ==> Paced(run.rounds[i], |run.initial|, run.work))
    && (forall i :: 0 <= i < |run.rounds| - 1 ==> SleepsUntil(run, i))
  }

  ghost predicate SleepsUntil(run: Run, i: nat)
    requires i + 1 < |run.rounds|
  {
    var ts, r := TimersAt(run, i + 1), run.rounds[i];
    |r.readings| == |ts| && run.rounds[i + 1].wake == r.end + SleepFor(run.loopPeriod, ts, r.readings)
  }

  lemma PeriodsArePositive(run: Run, k: nat)
    requires Legal(run) && k < |run.initial|
    ensures run.initial[k].period > 0.0 && run.work >= 0.0
  {
  }

  lemma {:induction false} SoonestBounds(loopPeriod: real, ts: seq<Timer>, readings: seq<real>)
    requires |readings| == |ts|
    ensures var s := Soonest(loopPeriod, ts, readings);
            && s <= loopPeriod
            && (forall k :: 0 <= k < |ts| ==> s <= ts[k].SecondsUntilDue(readings[k]))
            && (s == loopPeriod || exists k :: 0 <= k < |ts| && s == ts[k].SecondsUntilDue(readings[k]))
  {
    if ts != [] {
      var last := |ts| - 1;
      SoonestBounds(loopPeriod, ts[..last], readings[..last]);
      assert forall k :: 0 <= k < last ==> ts[..last][k] == ts[k] && readings[..last][k] == readings[k];
    }
  }

  // ----- Lateness -----

  /** From one round to the next: how far apart a check's polls are, and how late the later one is. */
  lemma NextRound(run: Run, i: nat, k: nat)
    requires Legal(run) && i + 1 < |run.rounds| && k < |run.initial|
    ensures var t := TimersAt(run, i + 1)[k];
            var due := t.lastService + t.period;
            && run.rounds[i].polls[k] < due
            && run.rounds[i + 1].wake <= Max(due, run.rounds[i].end) + run.work
            && run.rounds[i + 1].wake <= due + run.work
            && run.rounds[i + 1].wake <= run.rounds[i].end + run.loopPeriod
            && run.rounds[i + 1].wake >= run.rounds[i].end
  {
    var ts, r := TimersAt(run, i + 1), run.rounds[i];
    assert Paced(r, |run.initial|, run.work) && SleepsUntil(run, i);
    assert ts[k] == TimersAt(run, i)[k].Served(r.polls[k]);
    SoonestBounds(run.loopPeriod, ts, r.readings);
    assert Soonest(run.loopPeriod, ts, r.readings) <= ts[k].SecondsUntilDue(r.readings[k]);
  }

  /**
   Lateness bound: after its first poll, every check is polled at most twice a round's work past
   the instant it is due, in every round of every run.
   */
  lemma LatenessBound(run: Run, i: nat, k: nat)
    requires Legal(run) && 0 < i < |run.rounds| && k < |run.initial|
    ensures TimersAt(run, i)[k].OverdueBy(run.rounds[i].polls[k]) <= 2.0 * run.work
  {
    hide TimersAt, SleepsUntil;
    NextRound(run, i - 1, k);
    assert Paced(run.rounds[i], |run.initial|, run.work);
    assert run.rounds[i].polls[k] <= run.rounds[i].readings[k] <= run.rounds[i].end;
  }

  /** With instantaneous rounds nothing is ever overdue, and services are exactly one period apart. */
  lemma ExactCadence(run: Run, i: nat, k: nat)
    requires Legal(run) && run.work == 0.0 && 0 < i < |run.rounds| && k < |run.initial|
    ensures var t, now := TimersAt(run, i)[k], run.rounds[i].polls[k];
            && t.OverdueBy(now) == 0.0
            && (t.Due(now) ==> now == t.lastService + t.period)
  {
    LatenessBound(run, i, k);
  }

  /** A check is polled at least every loop period plus twice a round's work. */
  lemma PollGap(run: Run, i: nat, k: nat)
    requires Legal(run) && i + 1 < |run.rounds| && k < |run.initial|
    ensures 0.0 <= run.rounds[i + 1].polls[k] - run.rounds[i].polls[k] <= run.loopPeriod + 2.0 * run.work
  {
    NextRound(run, i, k);
    assert Paced(run.rounds[i], |run.initial|, run.work) && Paced(run.rounds[i + 1], |run.initial|, run.work);
    assert run.rounds[i].polls[k] <= run.rounds[i].readings[k];
    assert run.rounds[i + 1].polls[k] <= run.rounds[i + 1].readings[k];
  }

  // ----- No busy loop -----

  ghost predicate ServedIn(run: Run, i: nat, k: nat)
    requires i < |run.rounds| && k < |run.initial|
  {
    |run.rounds[i].polls| == |run.initial| && TimersAt(run, i)[k].Due(run.rounds[i].polls[k])
  }

  /** Until it is served again, a check's cadence is anchored at its last service. */
  lemma {:induction false} AnchoredAtLastService(run: Run, r: nat, i: nat, k: nat)
    requires r < i <= |run.rounds| && k < |run.initial| && ServedIn(run, r, k)
    requires forall e :: r < e < i ==> !ServedIn(run, e, k)
    ensures TimersAt(run, i)[k].lastService == run.rounds[r].polls[k]
    decreases i
  {
    var before := TimersAt(run, i - 1);
    if |run.rounds[i - 1].polls| == |before| {
      assert TimersAt(run, i)[k] == before[k].Served(run.rounds[i - 1].polls[k]);
    }
    if i > r + 1 {
      AnchoredAtLastService(run, r, i - 1, k);
      assert !ServedIn(run, i - 1, k);
    }
  }

  /** Services of a check are at most its period plus twice a round's work apart. */
  lemma ServiceGap(run: Run, r: nat, i: nat, k: nat)
    requires Legal(run) && r < i < |run.rounds| && k < |run.initial|
    requires ServedIn(run, r, k) && ServedIn(run, i, k) && forall e :: r < e < i ==> !ServedIn(run, e, k)
    ensures var gap := run.rounds[i].polls[k] - run.rounds[r].polls[k];
            run.initial[k].period <= gap <= run.initial[k].period + 2.0 * run.work
  {
    AnchoredAtLastService(run, r, i, k);
    LatenessBound(run, i, k);
  }

  /** Each round starts a full loop period after the one before, or serves some due check. */
  lemma EachRoundIsUseful(run: Run, i: nat)
    requires Legal(run) && 0 < i < |run.rounds|
    ensures || run.rounds[i].wake >= run.rounds[i - 1].wake + run.loopPeriod
            || exists k :: 0 <= k < |run.initial| && ServedIn(run, i, k)
  {
    var ts, r := TimersAt(run, i), run.rounds[i - 1];
    assert Paced(r, |run.initial|, run.work) && Paced(run.rounds[i], |run.initial|, run.work);
    assert SleepsUntil(run, i - 1);
    SoonestBounds(run.loopPeriod, ts, r.readings);
    var s := Soonest(run.loopPeriod, ts, r.readings);
    if s != run.loopPeriod {
      var k :| 0 <= k < |ts| && s == ts[k].SecondsUntilDue(r.readings[k]);
      assert ServedIn(run, i, k);
    }
  }

  /** With instantaneous rounds, every sleep is positive. */
  lemma SleepsArePositive(run: Run, i: nat)
    requires Legal(run) && run.work == 0.0 && 0 < i < |run.rounds|
    ensures run.rounds[i - 1].wake < run.rounds[i].wake <= run.rounds[i - 1].wake + run.loopPeriod
  {
    var ts, r := TimersAt(run, i), run.rounds[i - 1];
    assert Paced(r, |run.initial|, run.work) && SleepsUntil(run, i - 1);
    SoonestBounds(run.loopPeriod, ts, r.readings);
    forall k | 0 <= k < |ts|
      ensures ts[k].lastService + ts[k].period > r.wake && r.readings[k] == r.wake
    {
      NextRound(run, i - 1, k);
      assert r.polls[k] <= r.readings[k];
    }
  }

  /** How many of the rounds after `a`, up to i, start a full loop period or more after the one before. */
  ghost function LoopWakes(run: Run, a: nat, i: nat): nat
    requires a <= i < |run.rounds|
  {
    if i == a then 0
    else LoopWakes(run, a, i - 1) + if run.rounds[i].wake >= run.rounds[i - 1].wake + run.loopPeriod then 1 else 0
  }

  /** How many of the rounds after `a`, up to i, serve check k. */
  ghost function Services(run: Run, a: nat, i: nat, k: nat): nat
    requires a <= i < |run.rounds| && k < |run.initial|
  {
    if i == a then 0 else Services(run, a, i - 1, k) + if ServedIn(run, i, k) then 1 else 0
  }

  /** The same, added up over the first `checks` checks. */
  ghost function AllServices(run: Run, a: nat, i: nat, checks: nat): nat
    requires a <= i < |run.rounds| && checks <= |run.initial|
  {
    if checks == 0 then 0 else AllServices(run, a, i, checks - 1) + Services(run, a, i, checks - 1)
  }

  lemma {:induction false} AllServicesStep(run: Run, a: nat, i: nat, checks: nat)
    requires a < i < |run.rounds| && checks <= |run.initial|
    ensures AllServices(run, a, i - 1, checks) <= AllServices(run, a, i, checks)
    ensures (exists k :: 0 <= k < checks && ServedIn(run, i, k)) ==>
              AllServices(run, a, i - 1, checks) < AllServices(run, a, i, checks)
  {
    if checks > 0 {
      AllServicesStep(run, a, i, checks - 1);
    }
  }

  lemma {:induction false} RoundsAreAccountedFor(run: Run, a: nat, i: nat)
    requires Legal(run) && a <= i < |run.rounds|
    ensures i - a <= LoopWakes(run, a, i) + AllServices(run, a, i, |run.initial|)
    ensures Times(LoopWakes(run, a, i), run.loopPeriod) <= run.rounds[i].wake - run.rounds[a].wake
  {
    hide Paced, ServedIn, TimersAt;
    if i > a {
      RoundsAreAccountedFor(run, a, i - 1);
      EachRoundIsUseful(run, i);
      WakesAdvance(run, i);
      AllServicesStep(run, a, i, |run.initial|);
      TimesAdd(LoopWakes(run, a, i - 1), 1, run.loopPeriod);
    }
  }

  lemma WakesAdvance(run: Run, i: nat)
    requires Legal(run) && 0 < i < |run.rounds|
    ensures run.rounds[i - 1].wake <= run.rounds[i].wake
  {
    assert Paced(run.rounds[i - 1], |run.initial|, run.work) && SleepsUntil(run, i - 1);
  }

  /** A round moves a check's anchor to its poll exactly when it serves it, which takes a period since the last. */
  lemma ServedOrKept(run: Run, i: nat, k: nat)
    requires Legal(run) && i < |run.rounds| && k < |run.initial|
    ensures |run.rounds[i].polls| == |run.initial|
    ensures var before, after, poll := TimersAt(run, i)[k], TimersAt(run, i + 1)[k], run.rounds[i].polls[k];
            && after.lastService == (if ServedIn(run, i, k) then poll else before.lastService)
            && (ServedIn(run, i, k) ==> before.lastService + before.period <= poll)
  {
    assert Paced(run.rounds[i], |run.initial|, run.work);
    assert TimersAt(run, i + 1)[k] == TimersAt(run, i)[k].Served(run.rounds[i].polls[k]);
  }

  /** A check not served in round a may be due at once after it: its first service there is free. */
  ghost function FirstFree(run: Run, a: nat, k: nat): nat
    requires a < |run.rounds| && k < |run.initial|
  {
    if ServedIn(run, a, k) then 0 else 1
  }

  /** The services after round a, the free one aside, are a period apart each. */
  lemma {:induction false} ServicesAreSpaced(run: Run, a: nat, i: nat, k: nat)
    requires Legal(run) && a <= i < |run.rounds| && k < |run.initial|
    ensures |run.rounds[a].polls| == |run.rounds[i].polls| == |run.initial|
    ensures run.rounds[a].polls[k] <= run.rounds[i].polls[k]
    ensures var t, free := TimersAt(run, i + 1)[k], FirstFree(run, a, k);
            Services(run, a, i, k) >= free ==>
              && Times(Services(run, a, i, k) - free, t.period) <= t.lastService - run.rounds[a].polls[k]
              && t.lastService <= run.rounds[i].polls[k]
  {
    hide TimersAt, ServedIn, SleepsUntil, Times;
    ServedOrKept(run, i, k);
    ServedOrKept(run, a, k);
    ZeroTimes(run.initial[k].period);
    OnceIsWhole(run.initial[k].period);
    if i > a {
      ServicesAreSpaced(run, a, i - 1, k);
      PollGap(run, i - 1, k);
      TimesAdd(Services(run, a, i - 1, k) - FirstFree(run, a, k), 1, run.initial[k].period);
    }
  }

  /** Whole periods of the first `checks` checks within a span of time. */
  ghost function AllPeriods(ts: seq<Timer>, span: real, checks: nat): int
    requires checks <= |ts| && forall k :: 0 <= k < |ts| ==> ts[k].period > 0.0
  {
    if checks == 0 then 0 else AllPeriods(ts, span, checks - 1) + WholePeriods(span, ts[checks - 1].period)
  }

  /** How many of the first `checks` checks round a does not serve. */
  ghost function NotServed(run: Run, a: nat, checks: nat): (n: nat)
    requires a < |run.rounds| && checks <= |run.initial|
    ensures n <= checks
    ensures n == 0 <==> forall k :: 0 <= k < checks ==> ServedIn(run, a, k)
  {
    if checks == 0 then 0 else NotServed(run, a, checks - 1) + FirstFree(run, a, checks - 1)
  }

  /** The time from waking in round a to the end of round i. */
  function Span(run: Run, a: nat, i: nat): real
    requires a <= i < |run.rounds|
  {
    run.rounds[i].end - run.rounds[a].wake
  }

  lemma ServicesFitSpan(run: Run, a: nat, i: nat, k: nat)
    requires Legal(run) && a <= i < |run.rounds| && k < |run.initial|
    ensures Services(run, a, i, k) <= WholePeriods(Span(run, a, i), run.initial[k].period) + FirstFree(run, a, k)
  {
    hide WholePeriods, Services, Times, SleepsUntil, TimersAt, ServedIn;
    var period := run.initial[k].period;
    ServicesAreSpaced(run, a, i, k);
    assert Paced(run.rounds[i], |run.initial|, run.work) && Paced(run.rounds[a], |run.initial|, run.work);
    assert run.rounds[i].polls[k] <= run.rounds[i].readings[k];
    WholePeriodsAtLeast(Span(run, a, i), period, Services(run, a, i, k) - FirstFree(run, a, k));
    WholePeriodsAtLeast(Span(run, a, i), period, 0);
    ZeroTimes(period);
  }

  lemma {:induction false} ServicesWithinPeriods(run: Run, a: nat, i: nat, checks: nat)
    requires Legal(run) && a <= i < |run.rounds| && checks <= |run.initial|
    ensures AllServices(run, a, i, checks)
         <= AllPeriods(run.initial, Span(run, a, i), checks) + NotServed(run, a, checks)
  {
    hide WholePeriods, Services, SleepsUntil, TimersAt, ServedIn;
    if checks > 0 {
      ServicesWithinPeriods(run, a, i, checks - 1);
      ServicesFitSpan(run, a, i, checks - 1);
    }
  }

  /**
   No busy loop: the rounds from any round a to any later round i are at most one, plus the whole loop
   periods in that span, plus each check's whole periods in it, plus one for each check that round a
   does not serve, however long the rounds take.
   */
  lemma NoBusyLoop(run: Run, a: nat, i: nat)
    requires Legal(run) && a <= i < |run.rounds|
    ensures i + 1 - a <= 1 + WholePeriods(Span(run, a, i), run.loopPeriod)
                         + AllPeriods(run.initial, Span(run, a, i), |run.initial|)
                         + NotServed(run, a, |run.initial|)
  {
    hide WholePeriods, AllPeriods, Times, Services, AllServices, LoopWakes, TimersAt, SleepsUntil, ServedIn, NotServed;
    RoundsAreAccountedFor(run, a, i);
    ServicesWithinPeriods(run, a, i, |run.initial|);
    assert Paced(run.rounds[i], |run.initial|, run.work);
    WholePeriodsAtLeast(Span(run, a, i), run.loopPeriod, LoopWakes(run, a, i));
  }

  /** From the start nothing is added: every check is due at its first poll, as the checks are constructed to be. */
  lemma NoBusyLoopFromStart(run: Run, i: nat)
    requires Legal(run) && i < |run.rounds|
    requires forall k :: 0 <= k < |run.initial| ==> ServedIn(run, 0, k)
    ensures i + 1 <= 1 + WholePeriods(Span(run, 0, i), run.loopPeriod)
                     + AllPeriods(run.initial, Span(run, 0, i), |run.initial|)
  {
    hide WholePeriods, AllPeriods, Span, Paced, SleepsUntil, ServedIn;
    NoBusyLoop(run, 0, i);
  }
}
