/**
 Value types shared by the checks, and the rolling counters each check keeps
 (src/health_monitor/common/types.py).
 */
module HealthTypes {
  import opened Outcomes

  datatype HealthState = Ok | Degraded | Fault | Unknown {

    function Severity(): nat {
      match this
      case Ok => 0
      case Degraded => 1
      case Fault => 2
      case Unknown => 3
    }
  }

  function Worse(a: HealthState, b: HealthState): (w: HealthState)
    ensures w == a || w == b
    ensures w.Severity() >= a.Severity() && w.Severity() >= b.Severity()
  {
    if b.Severity() > a.Severity() then b else a
  }

  datatype Metrics =
    | PeerMetrics(silentFor: real, losses: nat, refreshes: nat)
    | QuorumMetrics(livePeers: nat, requiredPeers: int, configuredPeers: nat)
    | PassMetrics(passIndex: nat, pagesScanned: nat, regionBytes: int, mismatches: nat,
                  correctable: nat, uncorrectable: nat)
    | MountMetrics(freeFraction: real, writeLatencyMs: real, consecutiveFailures: nat, staleFor: real)

  datatype CheckResult = CheckResult(check: string, state: HealthState, subject: string, metrics: Metrics, at: real) {

    function Topic(): string {
      if subject != "" then "health." + check + "." + subject else "health." + check
    }
  }

  /** The results about one subject, in order. */
  function ResultsOf(rs: seq<CheckResult>, subject: string): seq<CheckResult> {
    if rs == [] then []
    else
      var rest := ResultsOf(rs[..|rs| - 1], subject);
      if rs[|rs| - 1].subject == subject then rest + [rs[|rs| - 1]] else rest
  }

  lemma {:induction false} ResultsOfConcat(a: seq<CheckResult>, b: seq<CheckResult>, subject: string)
    ensures ResultsOf(a + b, subject) == ResultsOf(a, subject) + ResultsOf(b, subject)
  {
    if b == [] {
      assert a + b == a;
    } else {
      assert (a + b)[..|a + b| - 1] == a + b[..|b| - 1];
      ResultsOfConcat(a, b[..|b| - 1], subject);
    }
  }

  function CountState(rs: seq<CheckResult>, state: HealthState): nat {
    if rs == [] then 0
    else CountState(rs[..|rs| - 1], state) + if rs[|rs| - 1].state == state then 1 else 0
  }

  lemma {:induction false} CountStateConcat(a: seq<CheckResult>, b: seq<CheckResult>, state: HealthState)
    ensures CountState(a + b, state) == CountState(a, state) + CountState(b, state)
  {
    if b == [] {
      assert a + b == a;
    } else {
      assert (a + b)[..|a + b| - 1] == a + b[..|b| - 1];
      CountStateConcat(a, b[..|b| - 1], state);
    }
  }

  // ----- Counters -----

  datatype Stats = Stats(runs: nat, faults: nat, degraded: nat, skippedSlots: nat,
                         lastState: Option<HealthState>, lastRun: Option<real>)
  {
    function Recorded(result: Option<CheckResult>, missedSlots: nat): Stats {
      var s := this.(skippedSlots := skippedSlots + missedSlots);
      match result
      case None => s
      case Some(r) =>
        s.(runs := runs + 1,
           lastState := Some(r.state),
           lastRun := Some(r.at),
           faults := if r.state == Fault then faults + 1 else faults,
           degraded := if r.state == Degraded then degraded + 1 else degraded)
    }

    /** Counters after one service call has recorded each of its results. */
    function RecordedAll(rs: seq<CheckResult>): Stats {
      if rs == [] then this else RecordedAll(rs[..|rs| - 1]).Recorded(Some(rs[|rs| - 1]), 0)
    }

    /** Counters after one service call: missed slots are counted only when it reported nothing. */
    function AfterCall(rs: seq<CheckResult>, missedSlots: nat): Stats {
      if rs == [] then Recorded(None, missedSlots) else RecordedAll(rs)
    }
  }

  const FRESH_STATS := Stats(0, 0, 0, 0, None, None)

  class CheckStats {
    var runs: nat
    var faults: nat
    var degraded: nat
    var skippedSlots: nat
    var lastState: Option<HealthState>
    var lastRun: Option<real>

    ghost function View(): Stats
      reads this
    {
      Stats(runs, faults, degraded, skippedSlots, lastState, lastRun)
    }

    constructor ()
      ensures View() == FRESH_STATS
    {
      runs, faults, degraded, skippedSlots := 0, 0, 0, 0;
      lastState, lastRun := None, None;
    }

    method Record(result: Option<CheckResult>, missedSlots: nat)
      modifies this
      ensures View() == old(View()).Recorded(result, missedSlots)
    {
      skippedSlots := skippedSlots + missedSlots;
      if result == None {
        return;
      }
      runs := runs + 1;
      lastState := Some(result.value.state);
      lastRun := Some(result.value.at);
      if result.value.state == Fault {
        faults := faults + 1;
      } else if result.value.state == Degraded {
        degraded := degraded + 1;
      }
    }
  }

  /** What one service call contributes to the counters. A call that raised contributes nothing. */
  datatype Call = RaisedCall | Reported(results: seq<CheckResult>, missedSlots: nat)

  function StatsAfter(calls: seq<Call>): Stats {
    if calls == [] then FRESH_STATS
    else
      var s := StatsAfter(calls[..|calls| - 1]);
      match calls[|calls| - 1]
      case RaisedCall => s
      case Reported(rs, missed) => s.AfterCall(rs, missed)
  }

  function AllResults(calls: seq<Call>): seq<CheckResult> {
    if calls == [] then []
    else
      AllResults(calls[..|calls| - 1]) +
      if calls[|calls| - 1].RaisedCall? then [] else calls[|calls| - 1].results
  }

  /** Missed slots over the calls that reported nothing. */
  function SilentMisses(calls: seq<Call>): nat {
    if calls == [] then 0
    else
      var c := calls[|calls| - 1];
      SilentMisses(calls[..|calls| - 1]) + if c.Reported? && c.results == [] then c.missedSlots else 0
  }

  lemma {:induction false} RecordedAllCounts(s: Stats, rs: seq<CheckResult>)
    ensures var t := s.RecordedAll(rs);
            && t.runs == s.runs + |rs|
            && t.faults == s.faults + CountState(rs, Fault)
            && t.degraded == s.degraded + CountState(rs, Degraded)
            && t.skippedSlots == s.skippedSlots
            && t.lastState == (if rs == [] then s.lastState else Some(rs[|rs| - 1].state))
            && t.lastRun == (if rs == [] then s.lastRun else Some(rs[|rs| - 1].at))
  {
    if rs != [] {
      RecordedAllCounts(s, rs[..|rs| - 1]);
    }
  }

  /**
   The counters summarise the whole history of service calls: one run per result,
   faults and degraded by state, the last result's state and time; slots missed
   before a call that reported something, or that raised, are lost from the count.
   */
  lemma {:induction false} StatsSummariseHistory(calls: seq<Call>)
    ensures var s, rs := StatsAfter(calls), AllResults(calls);
            && s.runs == |rs|
            && s.faults == CountState(rs, Fault)
            && s.degraded == CountState(rs, Degraded)
            && s.skippedSlots == SilentMisses(calls)
            && s.lastState == (if rs == [] then None else Some(rs[|rs| - 1].state))
            && s.lastRun == (if rs == [] then None else Some(rs[|rs| - 1].at))
  {
    if calls != [] {
      var front, last := calls[..|calls| - 1], calls[|calls| - 1];
      StatsSummariseHistory(front);
      var before := AllResults(front);
      if last.RaisedCall? {
        assert before + [] == before;
      } else {
        RecordedAllCounts(StatsAfter(front), last.results);
        CountStateConcat(before, last.results, Fault);
        CountStateConcat(before, last.results, Degraded);
      }
    }
  }
}
