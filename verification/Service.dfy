/**
 The control loop itself (src/health_monitor/service.py): one iteration, the sleep budget, the
 run and its shutdown. What each check's service call returns and publishes is given per round;
 that it acknowledges its timer exactly when due is what the checks' own modules prove.
 */
module Service {
  import opened Outcomes
  import opened HealthTypes
  import opened IntervalTimers
  import opened MessageBuses
  import opened Scheduler

  const STATUS_TOPIC := "health.monitor.status"

  /** One check's part in one iteration. */
  datatype Turn = Turn(results: seq<CheckResult>, messages: seq<Message>)

  /**
   What one iteration meets: what others have published on the bus since the one before, clock
   readings, the checks' turns, a stop request.
   */
  datatype Iteration = Iteration(
    arrivals: seq<Message>,
    polls: seq<real>,
    turns: seq<Turn>,
    readings: seq<real>,
    stop: bool)

  datatype Telemetry = Telemetry(results: nat, worstState: HealthState)

  function Publishes(ms: seq<Message>): seq<Effect> {
    seq(|ms|, i requires 0 <= i < |ms| => Publish(ms[i]))
  }

  /** The bus after the checks have published in turn. */
  function BusAfterTurns(b: Bus, turns: seq<Turn>): Bus {
    if turns == [] then b
    else DoEffects(BusAfterTurns(b, turns[..|turns| - 1]), Publishes(turns[|turns| - 1].messages))
  }

  function TurnResults(turns: seq<Turn>): seq<CheckResult> {
    if turns == [] then [] else TurnResults(turns[..|turns| - 1]) + turns[|turns| - 1].results
  }

  /** Those are every check's results, in service order. */
  lemma {:induction false} TurnResultsInOrder(turns: seq<Turn>, k: nat)
    requires k < |turns|
    ensures TurnResults(turns[..k]) + turns[k].results <= TurnResults(turns)
    ensures k == |turns| - 1 ==> TurnResults(turns) == TurnResults(turns[..k]) + turns[k].results
    ensures TurnResults([]) == []
  {
    if k < |turns| - 1 {
      assert turns[..|turns| - 1][..k] == turns[..k];
      TurnResultsInOrder(turns[..|turns| - 1], k);
    }
  }

  /** The worst state is reported by some result, or is OK; and no result is worse. */
  ghost predicate IsWorst(rs: seq<CheckResult>, worst: HealthState) {
    && (worst == Ok || exists i :: 0 <= i < |rs| && rs[i].state == worst)
    && forall i :: 0 <= i < |rs| ==> rs[i].state.Severity() <= worst.Severity()
  }

  /** The bus after one iteration: drained once, then the checks' messages in turn. */
  function BusAfterStep(b: Bus, turns: seq<Turn>, handlers: Handlers): Bus {
    BusAfterTurns(Drained(b, DRAIN_LIMIT, handlers), turns)
  }

  function StatusMessage(source: string, now: real): Message {
    Message(STATUS_TOPIC, OtherPayload, source, now)
  }

  /** Shutdown: publish the status, drain, and drain again when the bus is stopped. */
  function ShutDown(b: Bus, status: Message, handlers: Handlers): Bus {
    Drained(Drained(DoPublish(b, status), DRAIN_LIMIT, handlers), DRAIN_LIMIT, handlers)
  }

  predicate MaximumReached(maxIterations: Option<nat>, iterations: nat) {
    maxIterations.Some? && iterations >= maxIterations.value
  }

  /** A run that started after `done` iterations ends with the n-th of those listed. */
  predicate EndsAfter(its: seq<Iteration>, maxIterations: Option<nat>, done: nat, n: nat)
    requires n <= |its|
  {
    n > 0 && (its[n - 1].stop || MaximumReached(maxIterations, done + n))
  }

  /** How many of the listed iterations a run performs, starting after `done` earlier ones. */
  function Performed(its: seq<Iteration>, maxIterations: Option<nat>, done: nat): (n: nat)
    ensures n <= |its|
    decreases |its|
  {
    if its == [] then 0
    else if its[0].stop || MaximumReached(maxIterations, done + 1) then 1
    else 1 + Performed(its[1..], maxIterations, done + 1)
  }

  /** The bus after a list of iterations, each preceded by what others publish meanwhile. */
  function BusAfterSteps(b: Bus, its: seq<Iteration>, handlers: Handlers): Bus {
    if its == [] then b
    else
      var it := its[|its| - 1];
      var before := DoEffects(BusAfterSteps(b, its[..|its| - 1], handlers), Publishes(it.arrivals));
      BusAfterStep(before, it.turns, handlers)
  }

  function TimersAfterSteps(ts: seq<Timer>, its: seq<Iteration>): (after: seq<Timer>)
    ensures |after| == |ts|
  {
    if its == [] then ts
    else
      var before, polls := TimersAfterSteps(ts, its[..|its| - 1]), its[|its| - 1].polls;
      if |polls| != |ts| then before else ServeAll(before, polls)
  }

  /** A sleep is the loop's budget for the timers as iteration i left them. */
  ghost predicate BudgetedAfter(loopPeriod: real, ts: seq<Timer>, its: seq<Iteration>, i: nat, sleep: real)
    requires i < |its|
  {
    |its[i].readings| == |ts| && sleep == SleepFor(loopPeriod, TimersAfterSteps(ts, its[..i + 1]), its[i].readings)
  }

  ghost predicate SleptAsBudgeted(loopPeriod: real, ts: seq<Timer>, its: seq<Iteration>, sleeps: seq<real>) {
    |sleeps| <= |its| && forall i :: 0 <= i < |sleeps| ==> BudgetedAfter(loopPeriod, ts, its, i, sleeps[i])
  }

  class HealthMonitorService {
    const name: string
    const loopPeriod: real
    const bus: MessageBus
    const timers: seq<IntervalTimer>  // the cadence timer of each check, in service order
    var running: bool
    var iterations: nat

    ghost predicate Valid() {
      && (forall k :: 0 <= k < |timers| ==> timers[k].Legal())
      && forall k, l :: 0 <= k < l < |timers| ==> timers[k] != timers[l]
    }

    ghost predicate Fits(it: Iteration) {
      |it.polls| == |timers| && |it.turns| == |timers| && |it.readings| == |timers|
    }

    ghost function Timers(): (ts: seq<Timer>)
      reads timers
      ensures |ts| == |timers|
      ensures forall k :: 0 <= k < |ts| ==> ts[k] == timers[k].View()
    {
      seq(|timers|, k requires 0 <= k < |timers| reads timers => timers[k].View())
    }

    constructor (name: string, loopPeriod: real, bus: MessageBus, timers: seq<IntervalTimer>)
      requires forall k :: 0 <= k < |timers| ==> timers[k].Legal()
      requires forall k, l :: 0 <= k < l < |timers| ==> timers[k] != timers[l]
      ensures Valid() && !running && iterations == 0
      ensures this.bus == bus && this.timers == timers && this.loopPeriod == loopPeriod
    {
      this.name, this.loopPeriod, this.bus, this.timers := name, loopPeriod, bus, timers;
      running, iterations := false, 0;
    }

    method RequestStop()
      modifies this`running
      ensures !running
    {
      running := false;
    }

    method PublishEach(ms: seq<Message>)
      modifies bus
      ensures bus.View() == DoEffects(old(bus.View()), Publishes(ms))
    {
      for i := 0 to |ms|
        invariant bus.View() == DoEffects(old(bus.View()), Publishes(ms[..i]))
      {
        assert Publishes(ms[..i + 1]) == Publishes(ms[..i]) + [Publish(ms[i])];
        bus.Publish(ms[i]);
      }
      assert ms[..|ms|] == ms;
    }

    /** One iteration of the loop. */
    method Step(it: Iteration, handlers: Handlers) returns (t: Telemetry)
      requires Valid() && Fits(it)
      modifies this`iterations, bus, timers
      ensures iterations == old(iterations) + 1
      ensures Timers() == ServeAll(old(Timers()), it.polls)
      ensures bus.View() == BusAfterStep(old(bus.View()), it.turns, handlers)
      ensures t.results == |TurnResults(it.turns)| && IsWorst(TurnResults(it.turns), t.worstState)
    {
      var drained := bus.Drain(DRAIN_LIMIT, handlers);
      ServeInTurn(it);
      t := Aggregate(it.turns);
      iterations := iterations + 1;
    }

    /** The loop over the checks: each is served and publishes before the next one is polled. */
    method ServeInTurn(it: Iteration)
      requires Valid() && Fits(it)
      modifies bus, timers
      ensures Timers() == ServeAll(old(Timers()), it.polls)
      ensures bus.View() == BusAfterTurns(old(bus.View()), it.turns)
    {
      ghost var before := Timers();
      for k := 0 to |timers|
        invariant forall l :: 0 <= l < k ==> timers[l].View() == before[l].Served(it.polls[l])
        invariant forall l :: k <= l < |timers| ==> timers[l].View() == before[l]
        invariant bus.View() == BusAfterTurns(old(bus.View()), it.turns[..k])
      {
        assert it.turns[..k + 1][..k] == it.turns[..k];
        ServeCheck(k, it.polls[k], it.turns[k].messages);
      }
      assert it.turns[..|timers|] == it.turns;
    }

    /** The telemetry of an iteration: how many results, and the worst state among them. */
    method Aggregate(turns: seq<Turn>) returns (t: Telemetry)
      ensures t.results == |TurnResults(turns)| && IsWorst(TurnResults(turns), t.worstState)
    {
      var emitted, worst := 0, Ok;
      for k := 0 to |turns|
        invariant emitted == |TurnResults(turns[..k])| && IsWorst(TurnResults(turns[..k]), worst)
      {
        assert turns[..k + 1][..k] == turns[..k];
        var rs := turns[k].results;
        ghost var earlier := TurnResults(turns[..k]);
        assert earlier + rs[..0] == earlier;
        for i := 0 to |rs|
          invariant emitted == |earlier| + i && IsWorst(earlier + rs[..i], worst)
        {
          WorstOfOneMore(earlier + rs[..i], worst, rs[i]);
          assert earlier + rs[..i] + [rs[i]] == earlier + rs[..i + 1];
          emitted := emitted + 1;
          worst := Worse(worst, rs[i].state);
        }
        assert rs[..|rs|] == rs;
      }
      assert turns[..|turns|] == turns;
      t := Telemetry(emitted, worst);
    }

    /** One check's service call, as far as the loop sees it. */
    method ServeCheck(k: nat, now: real, messages: seq<Message>)
      requires Valid() && k < |timers|
      modifies bus, timers[k]
      ensures timers[k].View() == old(timers[k].View()).Served(now)
      ensures bus.View() == DoEffects(old(bus.View()), Publishes(messages))
    {
      if timers[k].Poll(now).due {
        timers[k].MarkServiced(now);
      }
      PublishEach(messages);
    }

    /** The budget for the next sleep, from one clock reading per check. */
    method SleepBudget(readings: seq<real>) returns (s: real)
      requires Valid() && |readings| == |timers|
      ensures s == SleepFor(loopPeriod, Timers(), readings)
    {
      var soonest := loopPeriod;
      ghost var ts := Timers();
      for k := 0 to |timers|
        invariant soonest == Soonest(loopPeriod, ts[..k], readings[..k])
      {
        assert ts[..k + 1][..k] == ts[..k] && readings[..k + 1][..k] == readings[..k];
        soonest := Min(soonest, timers[k].SecondsUntilDue(readings[k]));
      }
      assert ts[..|timers|] == ts && readings[..|timers|] == readings;
      s := Max(0.0, Min(soonest, loopPeriod));
    }

    method Shutdown(now: real, handlers: Handlers)
      modifies this, bus
      ensures !running && iterations == old(iterations)
      ensures bus.View() == ShutDown(old(bus.View()), StatusMessage(name, now), handlers)
    {
      running := false;
      bus.Publish(StatusMessage(name, now));
      var first := bus.Drain(DRAIN_LIMIT, handlers);
      var last := bus.Drain(DRAIN_LIMIT, handlers);
    }

    /** What others publish while the loop sleeps, and then an iteration. */
    method WakeAndStep(it: Iteration, handlers: Handlers)
      requires Valid() && Fits(it)
      modifies this`iterations, bus, timers
      ensures iterations == old(iterations) + 1
      ensures Timers() == ServeAll(old(Timers()), it.polls)
      ensures bus.View() == BusAfterStep(DoEffects(old(bus.View()), Publishes(it.arrivals)), it.turns, handlers)
    {
      PublishEach(it.arrivals);
      var telemetry := Step(it, handlers);
    }

    /**
     The loop over a list of iterations: the whole of a run that ends within the list, or else the
     part of a longer run, endless or not, that the list covers. A run ends after the iteration in
     which a stop is requested, or as soon as the iteration count reaches the maximum; even with a
     maximum of zero it performs one. The count is not reset by an earlier run. The sleep after a
     stop request still happens; the one after reaching the maximum does not.
     */
    method RunLoop(maxIterations: Option<nat>, its: seq<Iteration>, now: real, handlers: Handlers)
        returns (performed: nat, ended: bool, sleeps: seq<real>)
      requires Valid() && forall i :: 0 <= i < |its| ==> Fits(its[i])
      modifies this, bus, timers
      ensures performed == Performed(its, maxIterations, old(iterations))
      ensures ended <==> EndsAfter(its, maxIterations, old(iterations), performed)
      ensures !ended ==> performed == |its|
      ensures running == !ended && iterations == old(iterations) + performed
      ensures Timers() == TimersAfterSteps(old(Timers()), its[..performed])
      ensures var after := BusAfterSteps(old(bus.View()), its[..performed], handlers);
              bus.View() == if ended then ShutDown(after, StatusMessage(name, now), handlers) else after
      ensures |sleeps| == if ended && MaximumReached(maxIterations, iterations) then performed - 1 else performed
      ensures SleptAsBudgeted(loopPeriod, old(Timers()), its, sleeps)
    {
      hide Performed, TimersAfterSteps, BusAfterSteps, SleptAsBudgeted, OutcomeSoFar;
      hide SleepFor, ServeAll, BusAfterStep, ShutDown, DoPublish, DoEffects, Publishes;
      running, performed, sleeps := true, 0, [];
      ghost var ts, b, start := Timers(), bus.View(), iterations;
      RunStarts(ts, b, its, handlers, maxIterations, start, loopPeriod);
      while running && performed < |its|
        invariant performed <= |its| && iterations == start + performed
        invariant OutcomeSoFar(its, maxIterations, start, performed, running)
        invariant EndsAfter(its, maxIterations, start, performed) == !running
        invariant |sleeps| ==
                  if !running && MaximumReached(maxIterations, iterations) then performed - 1 else performed
        invariant Timers() == TimersAfterSteps(ts, its[..performed])
        invariant bus.View() == BusAfterSteps(b, its[..performed], handlers)
        invariant SleptAsBudgeted(loopPeriod, ts, its, sleeps)
        decreases |its| - performed, running
      {
        var it := its[performed];
        RunContinues(ts, b, its, handlers, maxIterations, start, performed);
        WakeAndStep(it, handlers);
        performed := performed + 1;
        if it.stop {
          RequestStop();
        }
        if MaximumReached(maxIterations, iterations) {
          running := false;
          break;
        }
        var s := SleepBudget(it.readings);
        OneMoreSleep(loopPeriod, ts, its, sleeps, s);
        sleeps := sleeps + [s];
      }
      RunEnds(its, maxIterations, start, performed, running);
      ended := !running;
      if ended {
        Shutdown(now, handlers);
      }
    }
  }

  /**
   A run performs the iterations up to the first after which it is stopped or the count has reached the
   maximum, and the whole list if there is none.
   */
  lemma {:induction false} PerformedIsFirstEnd(its: seq<Iteration>, maxIterations: Option<nat>, done: nat)
    ensures var n := Performed(its, maxIterations, done);
            && (its != [] ==> n > 0)
            && (forall i :: 0 <= i < n - 1 ==> !its[i].stop)
            && (maxIterations.Some? ==> n <= 1 || done + n - 1 < maxIterations.value)
            && (n < |its| ==> its[n - 1].stop || (maxIterations.Some? && done + n >= maxIterations.value))
            && (EndsAfter(its, maxIterations, done, n) <==>
                n > 0 && (its[n - 1].stop || (maxIterations.Some? && done + n >= maxIterations.value)))
    decreases |its|
  {
    if its != [] && !(its[0].stop || MaximumReached(maxIterations, done + 1)) {
      PerformedIsFirstEnd(its[1..], maxIterations, done + 1);
      var n := Performed(its[1..], maxIterations, done + 1);
      assert n > 0 ==> its[1..][n - 1] == its[n];
      forall i | 0 <= i < n
        ensures !its[i].stop
      {
        assert i > 0 ==> its[i] == its[1..][i - 1];
      }
    }
  }

  /** While running, the iterations still to perform are those of the rest of the list. */
  ghost predicate OutcomeSoFar(its: seq<Iteration>, maxIterations: Option<nat>, start: nat, performed: nat,
                               running: bool)
    requires performed <= |its|
  {
    Performed(its, maxIterations, start)
    == if running then performed + Performed(its[performed..], maxIterations, start + performed) else performed
  }

  lemma RunEnds(its: seq<Iteration>, maxIterations: Option<nat>, start: nat, performed: nat, running: bool)
    requires performed <= |its| && OutcomeSoFar(its, maxIterations, start, performed, running)
    requires running ==> performed == |its|
    ensures performed == Performed(its, maxIterations, start)
  {
  }

  lemma RunStarts(ts: seq<Timer>, b: Bus, its: seq<Iteration>, handlers: Handlers, maxIterations: Option<nat>,
                  start: nat, loopPeriod: real)
    ensures TimersAfterSteps(ts, its[..0]) == ts && BusAfterSteps(b, its[..0], handlers) == b
    ensures SleptAsBudgeted(loopPeriod, ts, its, [])
    ensures OutcomeSoFar(its, maxIterations, start, 0, true)
  {
    assert its[0..] == its;
  }

  lemma RunContinues(ts: seq<Timer>, b: Bus, its: seq<Iteration>, handlers: Handlers, maxIterations: Option<nat>,
                     start: nat, i: nat)
    requires i < |its| && |its[i].polls| == |ts|
    requires OutcomeSoFar(its, maxIterations, start, i, true)
    ensures TimersAfterSteps(ts, its[..i + 1]) == ServeAll(TimersAfterSteps(ts, its[..i]), its[i].polls)
    ensures BusAfterSteps(b, its[..i + 1], handlers)
         == BusAfterStep(DoEffects(BusAfterSteps(b, its[..i], handlers), Publishes(its[i].arrivals)),
                         its[i].turns, handlers)
    ensures OutcomeSoFar(its, maxIterations, start, i + 1, !EndsAfter(its, maxIterations, start, i + 1))
  {
    assert its[..i + 1][..i] == its[..i];
    assert its[i..][0] == its[i] && its[i..][1..] == its[i + 1..];
  }

  lemma OneMoreSleep(loopPeriod: real, ts: seq<Timer>, its: seq<Iteration>, sleeps: seq<real>, s: real)
    requires SleptAsBudgeted(loopPeriod, ts, its, sleeps) && |sleeps| < |its|
    requires BudgetedAfter(loopPeriod, ts, its, |sleeps|, s)
    ensures SleptAsBudgeted(loopPeriod, ts, its, sleeps + [s])
  {
    hide BudgetedAfter;
  }

  /** A run whose rounds are read off these iterations, sleeping as the loop did. */
  ghost predicate ReadOff(run: Run, its: seq<Iteration>, sleeps: seq<real>) {
    && |run.rounds| <= |its| && |run.rounds| <= |sleeps| + 1
    && (forall i :: 0 <= i < |run.rounds| ==>
          && run.rounds[i].polls == its[i].polls && |its[i].polls| == |run.initial|
          && run.rounds[i].readings == its[i].readings)
    && (forall i :: 0 <= i < |run.rounds| - 1 ==> run.rounds[i + 1].wake == run.rounds[i].end + sleeps[i])
  }

  lemma {:induction false} SameTimers(run: Run, its: seq<Iteration>, sleeps: seq<real>, i: nat)
    requires ReadOff(run, its, sleeps) && i <= |run.rounds|
    ensures TimersAt(run, i) == TimersAfterSteps(run.initial, its[..i])
  {
    if i > 0 {
      SameTimers(run, its, sleeps, i - 1);
      assert its[..i][..i - 1] == its[..i - 1];
    }
  }

  /**
   What the loop does is what the scheduler's runs describe: rounds read off the loop's iterations
   satisfy the sleeping rule of a run, so its bounds hold of the loop.
   */
  lemma LoopSleepsAsScheduled(run: Run, its: seq<Iteration>, sleeps: seq<real>, i: nat)
    requires ReadOff(run, its, sleeps) && i + 1 < |run.rounds|
    requires SleptAsBudgeted(run.loopPeriod, run.initial, its, sleeps)
    ensures SleepsUntil(run, i)
  {
    hide TimersAfterSteps, SleepFor;
    SameTimers(run, its, sleeps, i + 1);
    assert BudgetedAfter(run.loopPeriod, run.initial, its, i, sleeps[i]);
  }

  lemma WorstOfOneMore(rs: seq<CheckResult>, worst: HealthState, r: CheckResult)
    requires IsWorst(rs, worst)
    ensures IsWorst(rs + [r], Worse(worst, r.state))
  {
    var more := rs + [r];
    assert more[|rs|] == r;
    assert forall i :: 0 <= i < |rs| ==> more[i] == rs[i];
  }

  /** The worst state reads: UNKNOWN if any result is, else FAULT if any is, else DEGRADED if any is, else OK. */
  lemma WorstMeaning(rs: seq<CheckResult>, worst: HealthState)
    requires IsWorst(rs, worst)
    ensures var some := (state: HealthState) => exists i :: 0 <= i < |rs| && rs[i].state == state;
            worst == if some(Unknown) then Unknown else if some(Fault) then Fault
                     else if some(Degraded) then Degraded else Ok
  {
  }

  /**
   The status message is accepted exactly when the queue has room, and an accepted one is
   dispatched during shutdown exactly when at most 511 messages were queued before it, whatever
   the handlers publish meanwhile.
   */
  lemma StatusDelivered(b: Bus, status: Message, handlers: Handlers)
    requires Sound(b)
    ensures var accepted := DoPublish(b, status).accepted == b.accepted + [status];
            var c := ShutDown(b, status, handlers);
            var place := |b.dispatched| + |b.queue|;
            && (accepted <==> HasRoom(b))
            && (accepted ==>
                  && (|c.dispatched| > place <==> |b.queue| <= 511)
                  && (|c.dispatched| > place ==> c.dispatched[place] == status))
  {
    hide Drained, Sound, DoPublish;
    OfferKeepsSound(b, status);
    if HasRoom(b) {
      TwoDrains(DoPublish(b, status), handlers, |b.queue|);
    }
  }

  lemma OfferKeepsSound(b: Bus, m: Message)
    requires Sound(b)
    ensures var c := DoPublish(b, m);
            && Sound(c) && c.dispatched == b.dispatched
            && (c.accepted == b.accepted + [m] <==> HasRoom(b))
            && (HasRoom(b) ==> c.queue == b.queue + [m])
  {
    assert b.dispatched + (b.queue + [m]) == (b.dispatched + b.queue) + [m];
    assert |b.accepted + [m]| != |b.accepted|;
  }

  lemma TwoDrains(b: Bus, handlers: Handlers, k: nat)
    requires Sound(b) && k < |b.queue|
    ensures var c := Drained(Drained(b, DRAIN_LIMIT, handlers), DRAIN_LIMIT, handlers);
            && (|c.dispatched| > |b.dispatched| + k <==> k <= 511)
            && (|c.dispatched| > |b.dispatched| + k ==> c.dispatched[|b.dispatched| + k] == b.queue[k])
  {
    hide Drained, Sound, BusAfterStep;
    var d := DrainUpTo(DRAIN_LIMIT);
    var ops := [d, d];
    assert ops[1..] == [d] && ops[1..][1..] == [];
    assert Drains(ops[1..]) == 1 && Drains(ops) == 2;
    assert OperateAll(b, ops, handlers) == OperateAll(Operate(b, d, handlers), ops[1..], handlers)
        == OperateAll(Operate(Operate(b, d, handlers), d, handlers), [], handlers);
    BoundedWaiting(b, ops, handlers, DRAIN_LIMIT, k);
  }
}
