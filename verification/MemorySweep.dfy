/** The sweep as the object the service runs (src/health_monitor/checks/memory_integrity.py). */
module MemorySweep {
  import opened Outcomes
  import opened HealthTypes
  import opened IntervalTimers
  import opened MessageBuses
  import opened PeriodicChecks
  import opened SweepSpec

  class MemoryIntegrityCheck {
    const base: PeriodicCheck
    const config: SweepConfig
    var cursor: int
    var passIndex: nat
    var mismatchesThisPass: nat
    var pagesThisPass: nat
    var baseline: Option<Ecc>
    ghost var checked: seq<Page>  // the pages checked by the current call

    ghost predicate Valid() {
      base.checkId == RAM_ID && base.timer.Legal()
    }

    ghost function View(): Sweep
      reads this
    {
      Sweep(cursor, passIndex, mismatchesThisPass, pagesThisPass, baseline)
    }

    constructor (config: SweepConfig, bus: MessageBus, now: real)
      requires config.scanPeriod > 0.0
      ensures Valid() && View() == FRESH_SWEEP && this.config == config
      ensures base.bus == bus && base.timer.View() == NewTimer(config.scanPeriod, None, now, true)
    {
      this.config := config;
      var timer := new IntervalTimer(config.scanPeriod, None, now, true);
      base := new PeriodicCheck(RAM_ID, bus, timer);
      cursor, passIndex, mismatchesThisPass, pagesThisPass := 0, 0, 0, 0;
      baseline, checked := None, [];
    }

    /** Check one page and move past it; nothing moves if the read raises. */
    method CheckPage(slot: Slot) returns (raised: bool)
      modifies this
      ensures var length := PageLength(old(cursor), config.regionBytes);
              match slot.page(old(cursor), length)
              case ReadRaised => raised && View() == old(View()) && checked == old(checked)
              case Read(good) =>
                && !raised && View() == Checked(old(View()), Page(old(cursor), length, good))
                && checked == old(checked) + [Page(old(cursor), length, good)]
    {
      var length := if PAGE_BYTES < config.regionBytes - cursor then PAGE_BYTES else config.regionBytes - cursor;
      var outcome := slot.page(cursor, length);
      if outcome.ReadRaised? {
        return true;
      }
      checked := checked + [Page(cursor, length, outcome.good)];
      if !outcome.good {
        mismatchesThisPass := mismatchesThisPass + 1;
      }
      cursor := cursor + length;
      pagesThisPass := pagesThisPass + 1;
      raised := false;
    }

    /** Take the ECC baseline if there is none, then scan. */
    method AdvanceSlice(slot: Slot) returns (raised: bool, completed: bool)
      modifies this
      ensures Scan(checked, View(), raised) == Slice(config, old(View()), slot)
      ensures !raised ==> (completed <==> cursor >= config.regionBytes)
    {
      checked := [];
      if baseline == None {
        if slot.eccAtStart == None {
          return true, false;
        }
        baseline := slot.eccAtStart;
      }
      raised := ScanPages(slot);
      completed := cursor >= config.regionBytes;
    }

    /** The page loop of a slice; it ends at the page limit, the region end, a spent budget or a raise. */
    method ScanPages(slot: Slot) returns (raised: bool)
      requires checked == []
      modifies this
      ensures Scan(checked, View(), raised) == ScanFrom(config, old(View()), slot, 0)
    {
      hide Checked, PageLength, BudgetSpent;
      ghost var start := View();
      var scanned := 0;
      raised := false;
      while scanned < config.pagesPerSlice && !raised
        invariant Joined(checked, RestOfScan(slot, scanned, raised)) == ScanFrom(config, start, slot, 0)
        decreases config.pagesPerSlice - scanned, !raised
      {
        if cursor >= config.regionBytes || OverBudget(slot, scanned) {
          break;
        }
        ghost var before, sofar := View(), checked;
        UnfoldScan(config, before, slot, scanned, sofar);
        raised := CheckPage(slot);
        scanned := if raised then scanned else scanned + 1;
      }
    }

    predicate OverBudget(slot: Slot, scanned: nat)
      ensures OverBudget(slot, scanned) == BudgetSpent(config, slot, scanned)
    {
      scanned > 0 && slot.budgetClock(scanned) - slot.budgetClock(0) >= config.sliceBudgetMs / 1000.0
    }

    ghost function RestOfScan(slot: Slot, scanned: nat, raised: bool): Scan
      reads this
    {
      if raised then Scan([], View(), true) else ScanFrom(config, View(), slot, scanned)
    }

    static ghost function Joined(done: seq<Page>, rest: Scan): Scan {
      rest.(pages := done + rest.pages)
    }

    /** One round of the loop: what is still to come splits into this page and the rest. */
    static lemma UnfoldScan(c: SweepConfig, s: Sweep, slot: Slot, scanned: nat, done: seq<Page>)
      requires scanned < c.pagesPerSlice && s.cursor < c.regionBytes && !BudgetSpent(c, slot, scanned)
      ensures var length := PageLength(s.cursor, c.regionBytes);
              Joined(done, ScanFrom(c, s, slot, scanned)) ==
              match slot.page(s.cursor, length)
              case ReadRaised => Joined(done, Scan([], s, true))
              case Read(good) =>
                var p := Page(s.cursor, length, good);
                Joined(done + [p], ScanFrom(c, Checked(s, p), slot, scanned + 1))
    {
      var length := PageLength(s.cursor, c.regionBytes);
      if slot.page(s.cursor, length).Read? {
        var p := Page(s.cursor, length, slot.page(s.cursor, length).good);
        var rest := ScanFrom(c, Checked(s, p), slot, scanned + 1);
        assert done + ([p] + rest.pages) == done + [p] + rest.pages;
      }
    }

    method SummarisePass(counters: Ecc, now: real) returns (r: CheckResult)
      modifies this
      ensures View() == NextPass(old(View()), counters)
      ensures r == PassResult(config, old(View()), counters, now)
      ensures checked == old(checked)
    {
      var before := if baseline.Some? then baseline.value else counters;
      var correctable := Delta(counters.correctable, before.correctable);
      var uncorrectable := Delta(counters.uncorrectable, before.uncorrectable);
      var state := Ok;
      if uncorrectable >= config.uncorrectableFault {
        state := Fault;
      } else if mismatchesThisPass > 0 {
        state := Fault;
      } else if correctable >= config.correctableWarn {
        state := Degraded;
      }
      r := CheckResult(RAM_ID, state, "",
                       PassMetrics(passIndex, pagesThisPass, config.regionBytes, mismatchesThisPass,
                                   correctable, uncorrectable), now);
      passIndex := passIndex + 1;
      cursor := 0;
      mismatchesThisPass := 0;
      pagesThisPass := 0;
      baseline := Some(counters);
    }

    /** The tick handler. A raise ends it where it stands; the slot is acknowledged only before the summary. */
    method OnTick(tick: TimerTick, slot: Slot) returns (outcome: TickOutcome)
      requires Valid() && tick == base.timer.View().Poll(tick.now)
      modifies this, base.timer
      ensures !tick.due ==> outcome == Returned([]) && View() == old(View()) && checked == []
      ensures tick.due ==> SlotEffect(checked, View(), outcome) == DueSlot(config, old(View()), slot, tick.now)
      ensures outcome.Returned? ==> base.timer.View() == old(base.timer.View()).Served(tick.now)
      ensures base.timer.View() in
                {old(base.timer.View()), old(base.timer.View()).MarkServiced(tick.now)}
    {
      checked := [];
      if !tick.due {
        return Returned([]);
      }
      var raised, completed := AdvanceSlice(slot);
      if raised {
        return Raised;
      }
      base.timer.MarkServiced(tick.now);
      if !completed {
        return Returned([]);
      }
      if slot.eccAtEnd == None {
        return Raised;
      }
      var r := SummarisePass(slot.eccAtEnd.value, tick.now);
      outcome := Returned([r]);
    }

    /** One whole service call; raising or not, a due slot is acknowledged. */
    method Service(now: real, slot: Slot) returns (results: seq<CheckResult>)
      requires Valid()
      modifies this, base, base.bus, base.timer, base.stats
      ensures base.timer.View() == old(base.timer.View()).Served(now)
      ensures !old(base.timer.View()).Due(now) ==> results == [] && View() == old(View())
      ensures old(base.timer.View()).Due(now) ==>
                var effect := DueSlot(config, old(View()), slot, now);
                && View() == effect.sweep && checked == effect.pages
                && results == (if effect.outcome.Raised? then [] else effect.outcome.results)
      ensures base.bus.View() == PublishedAll(old(base.bus.View()), results, RAM_ID)
      ensures base.stats.View() ==
              if old(base.timer.View()).Due(now) && DueSlot(config, old(View()), slot, now).outcome.Raised?
              then old(base.stats.View())
              else old(base.stats.View()).AfterCall(results, old(base.timer.View()).MissedSlots(now))
    {
      var tick := base.timer.Poll(now);
      var outcome := OnTick(tick, slot);
      results := base.Complete(tick, outcome);
    }
  }
}
