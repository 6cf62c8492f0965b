/**
 Storage surveillance (src/health_monitor/checks/storage_health.py): per-mount history kept
 as two counters, and the escalation decided from them. A probe is an arbitrary value.
 */
module Storage {
  import opened Outcomes
  import opened HealthTypes
  import opened IntervalTimers
  import opened Topics
  import opened MessageBuses
  import opened PeriodicChecks

  const DISK_ID := "disk"

  datatype Probe = Probe(ok: bool, freeFraction: real, writeLatencyMs: real)

  datatype StorageConfig = StorageConfig(
    scanPeriod: real,
    mounts: seq<string>,
    freeWarn: real,
    freeFault: real,
    latencyWarnMs: real,
    latencyFaultMs: real,
    stallThreshold: real)

  /** What the check remembers about its mounts. */
  datatype Memory = Memory(lastGood: map<string, real>, failures: map<string, nat>)

  function FreshMemory(c: StorageConfig): Memory {
    Memory(map[], map m | m in c.mounts :: 0)
  }

  function FailuresOf(s: Memory, mount: string): nat {
    if mount in s.failures then s.failures[mount] else 0
  }

  function StaleFor(s: Memory, mount: string, now: real): real {
    if mount in s.lastGood then Max(0.0, now - s.lastGood[mount]) else 0.0
  }

  function Observe(s: Memory, mount: string, probe: Probe, now: real): Memory {
    if probe.ok then Memory(s.lastGood[mount := now], s.failures[mount := 0])
    else s.(failures := s.failures[mount := FailuresOf(s, mount) + 1])
  }

  /** The escalation cascade, in the source's order. */
  function Judge(c: StorageConfig, probe: Probe, failures: nat, staleFor: real): HealthState {
    if !probe.ok then (if staleFor > c.stallThreshold || failures > 1 then Fault else Degraded)
    else if probe.freeFraction < c.freeFault then Fault
    else if probe.writeLatencyMs > c.latencyFaultMs then Fault
    else if probe.freeFraction < c.freeWarn then Degraded
    else if probe.writeLatencyMs > c.latencyWarnMs then Degraded
    else Ok
  }

  function StripSlashes(s: string): string {
    if s != "" && s[0] == '/' then StripSlashes(s[1..])
    else if s != "" && s[|s| - 1] == '/' then StripSlashes(s[..|s| - 1])
    else s
  }

  function Slug(mount: string): string {
    var stripped := StripSlashes(mount);
    if stripped == "" then "root"
    else seq(|stripped|, i requires 0 <= i < |stripped| => if stripped[i] == '/' then '-' else stripped[i])
  }

  function MountResult(c: StorageConfig, s: Memory, mount: string, probe: Probe, now: real): CheckResult {
    var failures, staleFor := FailuresOf(s, mount), StaleFor(s, mount, now);
    CheckResult(DISK_ID, Judge(c, probe, failures, staleFor), Slug(mount),
                MountMetrics(probe.freeFraction, probe.writeLatencyMs, failures, staleFor), now)
  }

  /** How a scan ends: the memory it leaves and the results gathered; a probe that raises stops it. */
  datatype Scanned = Scanned(memory: Memory, results: seq<CheckResult>, raised: bool)

  /** One scan over the mounts; `probes` gives each probe's outcome, None when it raises. */
  function ScanMounts(c: StorageConfig, s: Memory, mounts: seq<string>, probes: nat -> Option<Probe>, now: real)
    : Scanned
  {
    if mounts == [] then Scanned(s, [], false)
    else
      var last := |mounts| - 1;
      var before := ScanMounts(c, s, mounts[..last], probes, now);
      if before.raised then before
      else match probes(last)
        case None => before.(raised := true)
        case Some(probe) =>
          var after := Observe(before.memory, mounts[last], probe, now);
          Scanned(after, before.results + [MountResult(c, after, mounts[last], probe, now)], false)
  }

  class StorageHealthCheck {
    const base: PeriodicCheck
    const config: StorageConfig
    var lastGoodProbe: map<string, real>
    var consecutiveFailures: map<string, nat>

    ghost predicate Valid() {
      base.checkId == DISK_ID && base.timer.Legal()
    }

    ghost function View(): Memory
      reads this
    {
      Memory(lastGoodProbe, consecutiveFailures)
    }

    constructor (config: StorageConfig, bus: MessageBus, now: real)
      requires config.scanPeriod > 0.0
      ensures Valid() && View() == FreshMemory(config) && this.config == config
      ensures base.bus == bus && base.timer.View() == NewTimer(config.scanPeriod, None, now, true)
    {
      this.config := config;
      var timer := new IntervalTimer(config.scanPeriod, None, now, true);
      base := new PeriodicCheck(DISK_ID, bus, timer);
      lastGoodProbe := map[];
      consecutiveFailures := map m | m in config.mounts :: 0;
    }

    method Evaluate(mount: string, probe: Probe, now: real) returns (r: CheckResult)
      ensures r == MountResult(config, View(), mount, probe, now)
    {
      var failures := if mount in consecutiveFailures then consecutiveFailures[mount] else 0;
      var staleFor := if mount in lastGoodProbe then Max(0.0, now - lastGoodProbe[mount]) else 0.0;
      var state := Ok;
      if !probe.ok {
        state := if staleFor > config.stallThreshold || failures > 1 then Fault else Degraded;
      } else if probe.freeFraction < config.freeFault || probe.writeLatencyMs > config.latencyFaultMs {
        state := Fault;
      } else if probe.freeFraction < config.freeWarn || probe.writeLatencyMs > config.latencyWarnMs {
        state := Degraded;
      }
      r := CheckResult(DISK_ID, state, Slug(mount),
                       MountMetrics(probe.freeFraction, probe.writeLatencyMs, failures, staleFor), now);
    }

    method Note(mount: string, probe: Probe, now: real)
      modifies this
      ensures View() == Observe(old(View()), mount, probe, now)
    {
      if probe.ok {
        lastGoodProbe := lastGoodProbe[mount := now];
        consecutiveFailures := consecutiveFailures[mount := 0];
      } else {
        var failures := if mount in consecutiveFailures then consecutiveFailures[mount] else 0;
        consecutiveFailures := consecutiveFailures[mount := failures + 1];
      }
    }

    method OnTick(tick: TimerTick, probes: nat -> Option<Probe>) returns (outcome: TickOutcome)
      requires Valid() && tick == base.timer.View().Poll(tick.now)
      modifies this, base.timer
      ensures !tick.due ==> outcome == Returned([]) && View() == old(View())
      ensures tick.due ==>
                var scan := ScanMounts(config, old(View()), config.mounts, probes, tick.now);
                View() == scan.memory && outcome == if scan.raised then Raised else Returned(scan.results)
      ensures base.timer.View() ==
              if outcome.Raised? then old(base.timer.View()) else old(base.timer.View()).Served(tick.now)
    {
      hide ScanMounts, Observe, MountResult;
      if !tick.due {
        return Returned([]);
      }
      ghost var start := View();
      NoMountYet(config, start, config.mounts, probes, tick.now);
      var results := [];
      for i := 0 to |config.mounts|
        invariant ScanMounts(config, start, config.mounts[..i], probes, tick.now) == Scanned(View(), results, false)
        invariant base.timer.View() == old(base.timer.View())
      {
        OneMoreMount(config, start, config.mounts, i, probes, tick.now);
        var probe := probes(i);
        if probe == None {
          RaiseEndsScan(config, start, config.mounts, i + 1, probes, tick.now);
          return Raised;
        }
        Note(config.mounts[i], probe.value, tick.now);
        var r := Evaluate(config.mounts[i], probe.value, tick.now);
        results := results + [r];
      }
      assert config.mounts[..|config.mounts|] == config.mounts;
      base.timer.MarkServiced(tick.now);
      outcome := Returned(results);
    }

    /** One whole service call; raising or not, a due slot is acknowledged. */
    method Service(now: real, probes: nat -> Option<Probe>) returns (results: seq<CheckResult>)
      requires Valid()
      modifies this, base, base.bus, base.timer, base.stats
      ensures base.timer.View() == old(base.timer.View()).Served(now)
      ensures !old(base.timer.View()).Due(now) ==> results == [] && View() == old(View())
      ensures old(base.timer.View()).Due(now) ==>
                var scan := ScanMounts(config, old(View()), config.mounts, probes, now);
                View() == scan.memory && results == if scan.raised then [] else scan.results
      ensures base.bus.View() == PublishedAll(old(base.bus.View()), results, DISK_ID)
      ensures base.stats.View() ==
              if old(base.timer.View()).Due(now) && ScanMounts(config, old(View()), config.mounts, probes, now).raised
              then old(base.stats.View())
              else old(base.stats.View()).AfterCall(results, old(base.timer.View()).MissedSlots(now))
    {
      var tick := base.timer.Poll(now);
      var outcome := OnTick(tick, probes);
      results := base.Complete(tick, outcome);
    }
  }

  lemma NoMountYet(c: StorageConfig, s: Memory, mounts: seq<string>, probes: nat -> Option<Probe>, now: real)
    ensures ScanMounts(c, s, mounts[..0], probes, now) == Scanned(s, [], false)
  {
  }

  /** What probing the next mount adds to a scan that has not raised. */
  lemma OneMoreMount(c: StorageConfig, s: Memory, mounts: seq<string>, i: nat, probes: nat -> Option<Probe>, now: real)
    requires i < |mounts| && !ScanMounts(c, s, mounts[..i], probes, now).raised
    ensures var before := ScanMounts(c, s, mounts[..i], probes, now);
            var after := ScanMounts(c, s, mounts[..i + 1], probes, now);
            match probes(i)
            case None => after == before.(raised := true)
            case Some(probe) =>
              && after.memory == Observe(before.memory, mounts[i], probe, now)
              && after.results == before.results + [MountResult(c, after.memory, mounts[i], probe, now)]
              && !after.raised
  {
    hide Observe, MountResult;
    assert mounts[..i + 1][..i] == mounts[..i];
  }

  lemma {:induction false} RaiseEndsScan(c: StorageConfig, s: Memory, mounts: seq<string>, i: nat,
                                         probes: nat -> Option<Probe>, now: real)
    requires i <= |mounts| && ScanMounts(c, s, mounts[..i], probes, now).raised
    ensures ScanMounts(c, s, mounts, probes, now) == ScanMounts(c, s, mounts[..i], probes, now)
  {
    if i == |mounts| {
      assert mounts[..i] == mounts;
    } else {
      assert mounts[..|mounts| - 1][..i] == mounts[..i];
      RaiseEndsScan(c, s, mounts[..|mounts| - 1], i, probes, now);
    }
  }

  // ----- The counters summarise the probe history -----

  /** One probe of a mount, as it happened. */
  datatype Seen = Seen(mount: string, probe: Probe, at: real)

  function MemoryAfter(c: StorageConfig, seen: seq<Seen>): Memory {
    if seen == [] then FreshMemory(c)
    else
      var last := seen[|seen| - 1];
      Observe(MemoryAfter(c, seen[..|seen| - 1]), last.mount, last.probe, last.at)
  }

  /** The probes of one mount, in order. */
  function About(seen: seq<Seen>, mount: string): seq<Seen> {
    if seen == [] then []
    else
      var rest := About(seen[..|seen| - 1], mount);
      if seen[|seen| - 1].mount == mount then rest + [seen[|seen| - 1]] else rest
  }

  /** n is the length of the longest failing suffix of a probe history. */
  ghost predicate IsFailingSuffix(probes: seq<Seen>, n: nat) {
    && n <= |probes|
    && (forall i :: |probes| - n <= i < |probes| ==> !probes[i].probe.ok)
    && (n < |probes| ==> probes[|probes| - n - 1].probe.ok)
  }

  /** A mount's history against what is remembered of it. */
  ghost predicate Summarises(probes: seq<Seen>, s: Memory, mount: string) {
    && IsFailingSuffix(probes, FailuresOf(s, mount))
    && (mount in s.lastGood <==> FailuresOf(s, mount) < |probes|)
    && (mount in s.lastGood ==> s.lastGood[mount] == probes[|probes| - FailuresOf(s, mount) - 1].at)
  }

  /**
   Over any probe history, with any mounts interleaved, listed twice or not configured at all:
   a mount's counter is the length of its failing suffix, and its last good probe is the one
   just before that suffix.
   */
  lemma {:induction false} CountersSummariseHistory(c: StorageConfig, seen: seq<Seen>, mount: string)
    ensures Summarises(About(seen, mount), MemoryAfter(c, seen), mount)
  {
    if seen != [] {
      CountersSummariseHistory(c, seen[..|seen| - 1], mount);
      var last := seen[|seen| - 1];
      var before, s := About(seen[..|seen| - 1], mount), MemoryAfter(c, seen[..|seen| - 1]);
      if last.mount == mount {
        ProbeSummarised(before, s, last);
      }
    }
  }

  lemma ProbeSummarised(before: seq<Seen>, s: Memory, last: Seen)
    requires Summarises(before, s, last.mount)
    ensures Summarises(before + [last], Observe(s, last.mount, last.probe, last.at), last.mount)
  {
    var probes := before + [last];
    assert forall i :: 0 <= i < |before| ==> probes[i] == before[i];
    assert probes[|before|] == last;
  }

  /** When a mount was last seen good, rescanning its history from the end. */
  function LastGood(probes: seq<Seen>): Option<real> {
    if probes == [] then None
    else if probes[|probes| - 1].probe.ok then Some(probes[|probes| - 1].at)
    else LastGood(probes[..|probes| - 1])
  }

  function Staleness(probes: seq<Seen>, now: real): real {
    match LastGood(probes)
    case None => 0.0
    case Some(at) => Max(0.0, now - at)
  }

  lemma {:induction false} LastGoodBeforeSuffix(probes: seq<Seen>, n: nat)
    requires IsFailingSuffix(probes, n)
    ensures LastGood(probes) == if n < |probes| then Some(probes[|probes| - n - 1].at) else None
  {
    if n > 0 {
      LastGoodBeforeSuffix(probes[..|probes| - 1], n - 1);
    }
  }

  /**
   A failed probe is DEGRADED exactly when no failure immediately precedes it and the mount has
   not been stale beyond the threshold; any other failed probe is a FAULT.
   */
  lemma {:induction false} FailedProbeJudgement(c: StorageConfig, seen: seq<Seen>, now: Seen)
    requires !now.probe.ok
    ensures var earlier := About(seen, now.mount);
            var startsSuffix := earlier == [] || earlier[|earlier| - 1].probe.ok;
            MountResult(c, MemoryAfter(c, seen + [now]), now.mount, now.probe, now.at).state ==
            if startsSuffix && Staleness(earlier, now.at) <= c.stallThreshold then Degraded else Fault
  {
    assert (seen + [now])[..|seen + [now]| - 1] == seen;
    CountersSummariseHistory(c, seen, now.mount);
    LastGoodBeforeSuffix(About(seen, now.mount), FailuresOf(MemoryAfter(c, seen), now.mount));
  }

  /**
   While consecutive probes of the mount are never further apart than the stall threshold, a
   failed probe is a FAULT exactly when the probe before it failed too: one transient failure
   is only ever DEGRADED.
   */
  lemma {:induction false} FaultMeansTwoFailures(c: StorageConfig, seen: seq<Seen>, now: Seen)
    requires !now.probe.ok && c.stallThreshold >= 0.0
    requires var earlier := About(seen, now.mount);
             earlier != [] ==> now.at - earlier[|earlier| - 1].at <= c.stallThreshold
    ensures var earlier := About(seen, now.mount);
            MountResult(c, MemoryAfter(c, seen + [now]), now.mount, now.probe, now.at).state == Fault <==>
            earlier != [] && !earlier[|earlier| - 1].probe.ok
  {
    FailedProbeJudgement(c, seen, now);
  }

  // ----- A successful probe is judged by the worse of two ladders -----

  function CapacityState(c: StorageConfig, freeFraction: real): HealthState {
    if freeFraction < c.freeFault then Fault else if freeFraction < c.freeWarn then Degraded else Ok
  }

  function LatencyState(c: StorageConfig, latencyMs: real): HealthState {
    if latencyMs > c.latencyFaultMs then Fault else if latencyMs > c.latencyWarnMs then Degraded else Ok
  }

  /**
   The cascade gives the worse of the two readings taken alone, so it never masks one by the
   other, and a mount that is fuller or slower is never judged healthier.
   */
  lemma CascadeIsWorstOf(c: StorageConfig, a: Probe, b: Probe, failures: nat, staleFor: real)
    requires a.ok && b.ok
    ensures Judge(c, a, failures, staleFor)
         == Worse(CapacityState(c, a.freeFraction), LatencyState(c, a.writeLatencyMs))
    ensures b.freeFraction <= a.freeFraction && b.writeLatencyMs >= a.writeLatencyMs ==>
              Judge(c, b, failures, staleFor).Severity() >= Judge(c, a, failures, staleFor).Severity()
  {
  }

  /** What a good probe's result says, read off the probe and the configuration alone. */
  ghost predicate JudgedGood(c: StorageConfig, probe: Probe, state: HealthState) {
    && (state == Fault <==> probe.freeFraction < c.freeFault || probe.writeLatencyMs > c.latencyFaultMs)
    && (state == Degraded <==>
        && probe.freeFraction >= c.freeFault && probe.writeLatencyMs <= c.latencyFaultMs
        && (probe.freeFraction < c.freeWarn || probe.writeLatencyMs > c.latencyWarnMs))
    && (state == Ok <==>
        && probe.freeFraction >= c.freeFault && probe.writeLatencyMs <= c.latencyFaultMs
        && probe.freeFraction >= c.freeWarn && probe.writeLatencyMs <= c.latencyWarnMs)
  }

  /** Over any history, a good probe is judged by its readings only, whatever failed before it. */
  lemma GoodProbeJudgement(c: StorageConfig, seen: seq<Seen>, now: Seen)
    requires now.probe.ok
    ensures JudgedGood(c, now.probe, MountResult(c, MemoryAfter(c, seen + [now]), now.mount, now.probe, now.at).state)
  {
    hide MemoryAfter, Slug;
  }

  /**
   Over any history, a result names the check and the mount, carries the probe's readings and time, and
   tells the mount's failing suffix and its staleness, the probe itself included.
   */
  lemma ResultDescribesProbe(c: StorageConfig, seen: seq<Seen>, now: Seen)
    ensures var r := MountResult(c, MemoryAfter(c, seen + [now]), now.mount, now.probe, now.at);
            && r.check == "disk" && r.subject == Slug(now.mount) && r.at == now.at && r.metrics.MountMetrics?
            && r.metrics.freeFraction == now.probe.freeFraction
            && r.metrics.writeLatencyMs == now.probe.writeLatencyMs
            && IsFailingSuffix(About(seen, now.mount) + [now], r.metrics.consecutiveFailures)
            && r.metrics.staleFor == if now.probe.ok then 0.0 else Staleness(About(seen, now.mount), now.at)
  {
    hide Slug, Judge;
    assert (seen + [now])[..|seen + [now]| - 1] == seen;
    CountersSummariseHistory(c, seen, now.mount);
    CountersSummariseHistory(c, seen + [now], now.mount);
    LastGoodBeforeSuffix(About(seen, now.mount), FailuresOf(MemoryAfter(c, seen), now.mount));
  }

  // ----- One scan -----

  /** The probes one scan makes, up to the first that raises. */
  function Probed(mounts: seq<string>, probes: nat -> Option<Probe>, now: real): seq<Seen> {
    if mounts == [] then []
    else
      var last := |mounts| - 1;
      var before := Probed(mounts[..last], probes, now);
      if |before| == last && probes(last).Some? then before + [Seen(mounts[last], probes(last).value, now)] else before
  }

  /** What each probe is judged to be, from the history up to and including it. */
  function Judged(c: StorageConfig, seen: seq<Seen>, made: seq<Seen>): seq<CheckResult> {
    if made == [] then []
    else
      var last := made[|made| - 1];
      Judged(c, seen, made[..|made| - 1])
      + [MountResult(c, MemoryAfter(c, seen + made), last.mount, last.probe, last.at)]
  }

  /**
   A scan appends its probes to the history: what it remembers and reports is what the histories
   say, and a probe that raises ends it, losing the reports but not what was already noted.
   */
  lemma {:induction false} ScanExtendsHistory(c: StorageConfig, seen: seq<Seen>, mounts: seq<string>,
                                              probes: nat -> Option<Probe>, now: real)
    ensures var scan := ScanMounts(c, MemoryAfter(c, seen), mounts, probes, now);
            var made := Probed(mounts, probes, now);
            && scan.memory == MemoryAfter(c, seen + made)
            && scan.results == Judged(c, seen, made)
            && |made| <= |mounts|
            && (scan.raised <==> |made| < |mounts|)
  {
    hide Observe, MountResult;
    if mounts == [] {
      assert seen + [] == seen;
    } else {
      var last := |mounts| - 1;
      ScanExtendsHistory(c, seen, mounts[..last], probes, now);
      var before, made := Probed(mounts[..last], probes, now), Probed(mounts, probes, now);
      if |before| == last && probes(last).Some? {
        assert (seen + made)[..|seen + made| - 1] == seen + before;
        assert made[..|made| - 1] == before;
      }
    }
  }

  lemma {:induction false} JudgedAt(c: StorageConfig, seen: seq<Seen>, made: seq<Seen>, x: nat)
    requires x < |made|
    ensures |Judged(c, seen, made)| == |made|
    ensures Judged(c, seen, made)[x] ==
            MountResult(c, MemoryAfter(c, seen + made[..x] + [made[x]]), made[x].mount, made[x].probe, made[x].at)
    decreases |made|
  {
    hide MemoryAfter, MountResult;
    var last := |made| - 1;
    if x < last {
      JudgedAt(c, seen, made[..last], x);
      assert made[..last][..x] == made[..x];
    } else {
      assert seen + made[..x] + [made[x]] == seen + made;
      if last > 0 {
        JudgedAt(c, seen, made[..last], 0);
      }
    }
  }

  lemma {:induction false} AboutConcat(a: seq<Seen>, b: seq<Seen>, mount: string)
    ensures About(a + b, mount) == About(a, mount) + About(b, mount)
  {
    if b == [] {
      assert a + b == a;
    } else {
      assert (a + b)[..|a + b| - 1] == a + b[..|b| - 1];
      AboutConcat(a, b[..|b| - 1], mount);
    }
  }

  ghost predicate Probes(made: seq<Seen>, mount: string) {
    exists a :: 0 <= a < |made| && made[a].mount == mount
  }

  /** The probes of a mount among those taken at one instant. */
  lemma {:induction false} AboutOneInstant(made: seq<Seen>, mount: string, at: real)
    requires forall a :: 0 <= a < |made| ==> made[a].at == at
    ensures About(made, mount) == [] <==> !Probes(made, mount)
    ensures forall a :: 0 <= a < |About(made, mount)| ==> About(made, mount)[a].at == at
  {
    if made != [] {
      var front, last := made[..|made| - 1], made[|made| - 1];
      AboutOneInstant(front, mount, at);
      if Probes(front, mount) {
        var a :| 0 <= a < |front| && front[a].mount == mount;
        assert made[a].mount == mount;
      }
    }
  }

  /** A scan probes every mount in turn, up to the first whose probe raises, all at the tick's instant. */
  lemma {:induction false} ProbedAtOnce(mounts: seq<string>, probes: nat -> Option<Probe>, now: real)
    ensures var made := Probed(mounts, probes, now);
            && |made| <= |mounts|
            && (forall a :: 0 <= a < |made| ==> made[a].at == now && made[a].mount == mounts[a])
            && (forall a :: 0 <= a < |made| ==> probes(a) == Some(made[a].probe))
            && (|made| < |mounts| ==> probes(|made|).None?)
  {
    if mounts != [] {
      ProbedAtOnce(mounts[..|mounts| - 1], probes, now);
    }
  }

  /** Whether a failed probe is a FAULT, told from the mount's previous probe alone. */
  ghost predicate FaultAfter(c: StorageConfig, earlier: seq<Seen>, now: real) {
    if earlier == [] then c.stallThreshold < 0.0
    else !earlier[|earlier| - 1].probe.ok || Max(0.0, now - earlier[|earlier| - 1].at) > c.stallThreshold
  }

  /** A failed probe is a FAULT exactly after another failure, or once the good probe before it is too old. */
  lemma PreviousProbeDecides(c: StorageConfig, seen: seq<Seen>, now: Seen)
    requires !now.probe.ok
    ensures MountResult(c, MemoryAfter(c, seen + [now]), now.mount, now.probe, now.at).state == Fault
            <==> FaultAfter(c, About(seen, now.mount), now.at)
  {
    FailedProbeJudgement(c, seen, now);
  }

  // ----- Mount topics -----

  lemma {:induction false} StrippingKeepsDots(s: string)
    ensures '.' in StripSlashes(s) <==> '.' in s
    decreases |s|
  {
    if s != "" && s[0] == '/' {
      StrippingKeepsDots(s[1..]);
      assert s == [s[0]] + s[1..];
    } else if s != "" && s[|s| - 1] == '/' {
      StrippingKeepsDots(s[..|s| - 1]);
      assert s == s[..|s| - 1] + [s[|s| - 1]];
    }
  }

  /** A mount's path is its core between leading and trailing slashes. */
  lemma {:induction false} StrippingKeepsCore(s: string) returns (before: string, after: string)
    ensures s == before + StripSlashes(s) + after
    ensures forall i :: 0 <= i < |before| ==> before[i] == '/'
    ensures forall i :: 0 <= i < |after| ==> after[i] == '/'
    ensures var core := StripSlashes(s); core != "" ==> core[0] != '/' && core[|core| - 1] != '/'
    decreases |s|
  {
    before, after := "", "";
    if s != "" && s[0] == '/' {
      before, after := StrippingKeepsCore(s[1..]);
      before := "/" + before;
      assert s == ['/'] + s[1..];
    } else if s != "" && s[|s| - 1] == '/' {
      before, after := StrippingKeepsCore(s[..|s| - 1]);
      after := after + "/";
      assert s == s[..|s| - 1] + ['/'];
    }
  }

  /** A mount's subject: its path without outer slashes, inner ones written as dashes; `root` if nothing is left. */
  lemma SlugMeaning(mount: string) returns (before: string, core: string, after: string)
    ensures mount == before + core + after
    ensures forall i :: 0 <= i < |before| ==> before[i] == '/'
    ensures forall i :: 0 <= i < |after| ==> after[i] == '/'
    ensures core != "" ==> core[0] != '/' && core[|core| - 1] != '/'
    ensures if core == "" then Slug(mount) == "root"
            else |Slug(mount)| == |core|
                 && forall i :: 0 <= i < |core| ==> Slug(mount)[i] == if core[i] == '/' then '-' else core[i]
  {
    core := StripSlashes(mount);
    before, after := StrippingKeepsCore(mount);
  }

  lemma SlugKeepsDots(mount: string)
    ensures '.' in Slug(mount) <==> '.' in mount
    ensures Slug(mount) != "" && '/' !in Slug(mount)
  {
    StrippingKeepsDots(mount);
    var stripped, slug := StripSlashes(mount), Slug(mount);
    if stripped != "" && '.' in stripped {
      var i :| 0 <= i < |stripped| && stripped[i] == '.';
      assert slug[i] == '.';
    }
  }

  /**
   A subscriber to `health.disk.*` sees a mount's results exactly when the mount's path holds no
   dot: a dotted path yields a topic with a further segment.
   */
  lemma MountTopicSeenIff(c: StorageConfig, s: Memory, mount: string, probe: Probe, now: real)
    ensures Matches("health.disk" + ".*", MountResult(c, s, mount, probe, now).Topic()) <==> '.' !in mount
  {
    hide Slug, Matches, Judge;
    SlugKeepsDots(mount);
    MountTopic(c, s, mount, probe, now);
    WildcardDecodesOneSegment("health.disk", Slug(mount));
  }

  lemma MountTopic(c: StorageConfig, s: Memory, mount: string, probe: Probe, now: real)
    requires Slug(mount) != ""
    ensures MountResult(c, s, mount, probe, now).Topic() == "health.disk" + "." + Slug(mount)
  {
    hide Slug, Judge;
    assert "health." + DISK_ID + "." + Slug(mount) == "health.disk" + "." + Slug(mount);
  }
}
