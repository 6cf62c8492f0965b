/**
 The sliced memory sweep as a function of its state and of one slot's environment
 (src/health_monitor/checks/memory_integrity.py).

 The environment is adversarial: the budget clock may read anything, any page read and any
 ECC read may raise. A page outcome says whether the checksum read equals the one recorded.
 */
module SweepSpec {
  import opened Outcomes
  import opened HealthTypes
  import opened PeriodicChecks

  const RAM_ID := "ram"
  const PAGE_BYTES: nat := 4096

  datatype Ecc = Ecc(correctable: nat, uncorrectable: nat)

  datatype SweepConfig = SweepConfig(
    scanPeriod: real,
    regionBytes: int,
    pagesPerSlice: int,
    sliceBudgetMs: real,
    correctableWarn: int,
    uncorrectableFault: int)

  datatype PageOutcome = ReadRaised | Read(good: bool)

  /** One page checked: where, how long, and whether it was good. */
  datatype Page = Page(offset: int, length: int, good: bool)

  /**
   One slot's surroundings: budgetClock(0) is read on entry, budgetClock(j) before page j;
   page(offset, length) is the outcome of checking that page; an ECC read that raises is None.
   */
  datatype Slot = Slot(
    budgetClock: nat -> real,
    page: (int, int) -> PageOutcome,
    eccAtStart: Option<Ecc>,
    eccAtEnd: Option<Ecc>)

  datatype Sweep = Sweep(cursor: int, passIndex: nat, mismatches: nat, pages: nat, baseline: Option<Ecc>)

  const FRESH_SWEEP := Sweep(0, 0, 0, 0, None)

  function PageLength(cursor: int, region: int): int {
    if PAGE_BYTES < region - cursor then PAGE_BYTES else region - cursor
  }

  function Checked(s: Sweep, p: Page): Sweep {
    s.(cursor := s.cursor + p.length, pages := s.pages + 1,
       mismatches := if p.good then s.mismatches else s.mismatches + 1)
  }

  function BudgetSpent(c: SweepConfig, slot: Slot, scanned: nat): bool {
    scanned > 0 && slot.budgetClock(scanned) - slot.budgetClock(0) >= c.sliceBudgetMs / 1000.0
  }

  /** How a stretch of scanning ends: the pages checked in order, the new state, whether it raised. */
  datatype Scan = Scan(pages: seq<Page>, sweep: Sweep, raised: bool)

  function ScanFrom(c: SweepConfig, s: Sweep, slot: Slot, scanned: nat): Scan
    decreases c.pagesPerSlice - scanned
  {
    if scanned >= c.pagesPerSlice || s.cursor >= c.regionBytes || BudgetSpent(c, slot, scanned) then
      Scan([], s, false)
    else
      var length := PageLength(s.cursor, c.regionBytes);
      match slot.page(s.cursor, length)
      case ReadRaised => Scan([], s, true)
      case Read(good) =>
        var p := Page(s.cursor, length, good);
        var rest := ScanFrom(c, Checked(s, p), slot, scanned + 1);
        Scan([p] + rest.pages, rest.sweep, rest.raised)
  }

  /** One slice: take the ECC baseline if there is none yet, then scan. */
  function Slice(c: SweepConfig, s: Sweep, slot: Slot): Scan {
    if s.baseline.None? && slot.eccAtStart.None? then Scan([], s, true)
    else ScanFrom(c, if s.baseline.None? then s.(baseline := slot.eccAtStart) else s, slot, 0)
  }

  function Delta(now: nat, before: nat): nat {
    if now > before then now - before else 0
  }

  function PassState(c: SweepConfig, mismatches: nat, correctable: nat, uncorrectable: nat): HealthState {
    if uncorrectable >= c.uncorrectableFault then Fault
    else if mismatches > 0 then Fault
    else if correctable >= c.correctableWarn then Degraded
    else Ok
  }

  function PassResult(c: SweepConfig, s: Sweep, counters: Ecc, now: real): CheckResult {
    var before := if s.baseline.Some? then s.baseline.value else counters;
    var correctable := Delta(counters.correctable, before.correctable);
    var uncorrectable := Delta(counters.uncorrectable, before.uncorrectable);
    CheckResult(RAM_ID, PassState(c, s.mismatches, correctable, uncorrectable), "",
                PassMetrics(s.passIndex, s.pages, c.regionBytes, s.mismatches, correctable, uncorrectable), now)
  }

  function NextPass(s: Sweep, counters: Ecc): Sweep {
    Sweep(0, s.passIndex + 1, 0, 0, Some(counters))
  }

  /** What one due slot does: the pages it checks, the state it leaves, and how its handler ends. */
  datatype SlotEffect = SlotEffect(pages: seq<Page>, sweep: Sweep, outcome: TickOutcome)

  function DueSlot(c: SweepConfig, s: Sweep, slot: Slot, now: real): SlotEffect {
    var scan := Slice(c, s, slot);
    if scan.raised then SlotEffect(scan.pages, scan.sweep, Raised)
    else if scan.sweep.cursor < c.regionBytes then SlotEffect(scan.pages, scan.sweep, Returned([]))
    else match slot.eccAtEnd
      case None => SlotEffect(scan.pages, scan.sweep, Raised)
      case Some(counters) =>
        SlotEffect(scan.pages, NextPass(scan.sweep, counters), Returned([PassResult(c, scan.sweep, counters, now)]))
  }
}
