/**
 What every check shares (src/health_monitor/checks/base.py): after the check's own tick
 handler has run, publish and count what it returned, or give the slot up if it raised.
 The concrete checks hold one of these objects where the source inherits from a base class.
 */
module PeriodicChecks {
  import opened Outcomes
  import opened HealthTypes
  import opened IntervalTimers
  import opened MessageBuses

  /** How a check's tick handler ends. */
  datatype TickOutcome = Raised | Returned(results: seq<CheckResult>)

  function ResultMessage(r: CheckResult, source: string): Message {
    Message(r.Topic(), HealthPayload(r), source, r.at)
  }

  function PublishedAll(b: Bus, rs: seq<CheckResult>, source: string): Bus {
    if rs == [] then b
    else DoPublish(PublishedAll(b, rs[..|rs| - 1], source), ResultMessage(rs[|rs| - 1], source))
  }

  /** The last state published for each subject. */
  function LastStates(known: map<string, HealthState>, rs: seq<CheckResult>): map<string, HealthState> {
    if rs == [] then known
    else LastStates(known, rs[..|rs| - 1])[rs[|rs| - 1].subject := rs[|rs| - 1].state]
  }

  /** What is remembered for a subject is the state of its latest result, whatever came before. */
  lemma {:induction false} LastStatesAreLatest(known: map<string, HealthState>, rs: seq<CheckResult>, subject: string)
    ensures var about := ResultsOf(rs, subject);
            if about == [] then
              (subject in LastStates(known, rs) <==> subject in known)
              && (subject in known ==> LastStates(known, rs)[subject] == known[subject])
            else
              subject in LastStates(known, rs) && LastStates(known, rs)[subject] == about[|about| - 1].state
  {
    if rs != [] {
      LastStatesAreLatest(known, rs[..|rs| - 1], subject);
    }
  }

  class PeriodicCheck {
    const checkId: string
    const bus: MessageBus
    const timer: IntervalTimer
    const stats: CheckStats
    var lastPublished: map<string, HealthState>

    constructor (checkId: string, bus: MessageBus, timer: IntervalTimer)
      ensures this.checkId == checkId && this.bus == bus && this.timer == timer
      ensures fresh(stats) && stats.View() == FRESH_STATS && lastPublished == map[]
    {
      this.checkId, this.bus, this.timer := checkId, bus, timer;
      stats := new CheckStats();
      lastPublished := map[];
    }

    /**
     The rest of a service call, once the tick handler has ended. A handler that raised
     costs the slot: nothing is published or counted, and the timer is acknowledged even
     when the tick was not due.
     */
    method Complete(tick: TimerTick, outcome: TickOutcome) returns (results: seq<CheckResult>)
      modifies this, bus, timer, stats
      ensures outcome.Raised? ==>
                && results == []
                && timer.View() == old(timer.View()).MarkServiced(tick.now)
                && bus.View() == old(bus.View()) && stats.View() == old(stats.View())
                && lastPublished == old(lastPublished)
      ensures outcome.Returned? ==>
                && results == outcome.results
                && timer.View() == old(timer.View())
                && bus.View() == PublishedAll(old(bus.View()), results, checkId)
                && stats.View() == old(stats.View()).AfterCall(results, tick.missedSlots)
                && lastPublished == LastStates(old(lastPublished), results)
    {
      if outcome.Raised? {
        timer.MarkServiced(tick.now);
        return [];
      }
      results := outcome.results;
      for i := 0 to |results|
        invariant timer.View() == old(timer.View())
        invariant bus.View() == PublishedAll(old(bus.View()), results[..i], checkId)
        invariant stats.View() == old(stats.View()).RecordedAll(results[..i])
        invariant lastPublished == LastStates(old(lastPublished), results[..i])
      {
        assert results[..i + 1][..i] == results[..i];
        PublishResult(results[i]);
        stats.Record(Some(results[i]), 0);
      }
      assert results[..|results|] == results;
      if results == [] {
        stats.Record(None, tick.missedSlots);
      }
    }

    method PublishResult(r: CheckResult)
      modifies this, bus
      ensures bus.View() == DoPublish(old(bus.View()), ResultMessage(r, checkId))
      ensures lastPublished == old(lastPublished)[r.subject := r.state]
    {
      lastPublished := lastPublished[r.subject := r.state];
      bus.Publish(ResultMessage(r, checkId));
    }
  }
}
