/**
 The sweep over any run of due slots: sliced scanning is a one-shot scan cut into pieces,
 it always progresses, it respects the budget, and ECC events are conserved across passes.
 */
module SweepRuns {
  import opened Outcomes
  import opened HealthTypes
  import opened IntervalTimers
  import opened SweepSpec

  // ----- The one-shot scan -----

  datatype Span = Span(offset: int, length: int)

  /** The pages of the region from an offset on, in order. */
  function Tiles(from: int, region: int): seq<Span>
    decreases region - from
  {
    if from >= region then []
    else [Span(from, PageLength(from, region))] + Tiles(from + PageLength(from, region), region)
  }

  /** Tile i starts at i pages and is a full page, but for a shorter last one: the region, covered once. */
  lemma {:induction false} TilesCoverOnce(start: nat, region: nat, i: nat)
    requires start * 4096 <= region
    ensures |Tiles(start * 4096, region)| == (region - start * 4096 + 4096 - 1) / 4096
    ensures i < |Tiles(start * 4096, region)| ==>
              var t := Tiles(start * 4096, region)[i];
              t.offset == (start + i) * 4096
              && t.length == (if region - t.offset < 4096 then region - t.offset else 4096)
              && t.length > 0
    decreases region - start * PAGE_BYTES
  {
    var from := start * PAGE_BYTES;
    if from < region {
      if region - from > PAGE_BYTES {
        assert (start + 1) * PAGE_BYTES == from + PAGE_BYTES;
        TilesCoverOnce(start + 1, region, if i > 0 then i - 1 else 0);
      } else {
        assert Tiles(from + PageLength(from, region), region) == [];
      }
    }
  }

  function Spans(pages: seq<Page>): seq<Span> {
    if pages == [] then []
    else Spans(pages[..|pages| - 1]) + [Span(pages[|pages| - 1].offset, pages[|pages| - 1].length)]
  }

  function Bad(pages: seq<Page>): nat {
    if pages == [] then 0 else Bad(pages[..|pages| - 1]) + if pages[|pages| - 1].good then 0 else 1
  }

  lemma {:induction false} PagesConcat(a: seq<Page>, b: seq<Page>)
    ensures Spans(a + b) == Spans(a) + Spans(b) && Bad(a + b) == Bad(a) + Bad(b)
  {
    if b == [] {
      assert a + b == a;
    } else {
      assert (a + b)[..|a + b| - 1] == a + b[..|b| - 1];
      PagesConcat(a, b[..|b| - 1]);
    }
  }

  // ----- One slice -----

  ghost predicate Sensible(c: SweepConfig) {
    c.regionBytes > 0 && c.pagesPerSlice > 0 && c.sliceBudgetMs > 0.0
  }

  /** What scanning from a state does: the tiles it covers are the ones it removes from those left. */
  ghost predicate Covers(c: SweepConfig, s: Sweep, scan: Scan) {
    && s.cursor <= scan.sweep.cursor <= c.regionBytes
    && Spans(scan.pages) + Tiles(scan.sweep.cursor, c.regionBytes) == Tiles(s.cursor, c.regionBytes)
    && scan.sweep == s.(cursor := scan.sweep.cursor, pages := s.pages + |scan.pages|,
                        mismatches := s.mismatches + Bad(scan.pages))
  }

  lemma {:induction false} ScanCovers(c: SweepConfig, s: Sweep, slot: Slot, scanned: nat)
    requires Sensible(c) && s.cursor <= c.regionBytes && scanned <= c.pagesPerSlice
    ensures var scan := ScanFrom(c, s, slot, scanned);
            && Covers(c, s, scan)
            && |scan.pages| <= c.pagesPerSlice - scanned
            && (scanned == 0 && s.cursor < c.regionBytes && !scan.raised ==> |scan.pages| >= 1)
            && (|scan.pages| == 0 ==> scan.sweep == s)
            && (forall p :: p in scan.pages ==> slot.page(p.offset, p.length) == Read(p.good))
    decreases c.pagesPerSlice - scanned
  {
    hide Covers;
    var scan := ScanFrom(c, s, slot, scanned);
    if scan.pages == [] {
      NoPagesCover(c, s, scan);
    } else {
      var p := scan.pages[0];
      var next := Checked(s, p);
      ScanCovers(c, next, slot, scanned + 1);
      OnePageMore(c, s, p, ScanFrom(c, next, slot, scanned + 1));
    }
  }

  lemma NoPagesCover(c: SweepConfig, s: Sweep, scan: Scan)
    requires scan.pages == [] && scan.sweep == s && s.cursor <= c.regionBytes
    ensures Covers(c, s, scan)
  {
  }

  lemma OnePageMore(c: SweepConfig, s: Sweep, p: Page, rest: Scan)
    requires s.cursor < c.regionBytes && p.offset == s.cursor && p.length == PageLength(s.cursor, c.regionBytes)
    requires Covers(c, Checked(s, p), rest)
    ensures Covers(c, s, Scan([p] + rest.pages, rest.sweep, rest.raised))
  {
    PagesConcat([p], rest.pages);
    assert [p][..0] == [] && Spans([p]) == [Span(p.offset, p.length)];
    assert [Span(p.offset, p.length)] + Spans(rest.pages) + Tiles(rest.sweep.cursor, c.regionBytes)
        == [Span(p.offset, p.length)] + (Spans(rest.pages) + Tiles(rest.sweep.cursor, c.regionBytes));
  }

  /**
   Where a scan stops: every page it tries is within the slice's count and, after the first, within the
   budget; and it ends on a raise, at the count, at the region's end or with the budget used up.
   */
  ghost predicate StopsRight(c: SweepConfig, slot: Slot, scanned: nat, scan: Scan) {
    var next, spent := scanned + |scan.pages|, (k: nat) => slot.budgetClock(k) - slot.budgetClock(0);
    && (forall k: nat :: scanned <= k < next ==> k < c.pagesPerSlice && (k > 0 ==> spent(k) < c.sliceBudgetMs / 1000.0))
    && if scan.raised then
         && next < c.pagesPerSlice && scan.sweep.cursor < c.regionBytes
         && (next > 0 ==> spent(next) < c.sliceBudgetMs / 1000.0)
         && slot.page(scan.sweep.cursor, PageLength(scan.sweep.cursor, c.regionBytes)).ReadRaised?
       else
         || next >= c.pagesPerSlice || scan.sweep.cursor >= c.regionBytes
         || (next > 0 && spent(next) >= c.sliceBudgetMs / 1000.0)
  }

  lemma {:induction false} ScanStopsRight(c: SweepConfig, s: Sweep, slot: Slot, scanned: nat)
    ensures StopsRight(c, slot, scanned, ScanFrom(c, s, slot, scanned))
    decreases c.pagesPerSlice - scanned
  {
    var scan := ScanFrom(c, s, slot, scanned);
    if scan.pages != [] {
      ScanStopsRight(c, Checked(s, scan.pages[0]), slot, scanned + 1);
    }
  }

  // ----- Time spent in one slice -----

  /** No page takes longer than `cost`; the reading after k pages is what the loop would read before page k. */
  ghost predicate PagesCostAtMost(slot: Slot, cost: real) {
    forall k: nat :: slot.budgetClock(k) <= slot.budgetClock(k + 1) <= slot.budgetClock(k) + cost
  }

  /** The pages a scan tries: those it checks, and the one whose read raises. */
  function Tried(scan: Scan): nat {
    |scan.pages| + if scan.raised then 1 else 0
  }

  /** The time a slice spends on pages, a raising read included. */
  function TimeSpent(c: SweepConfig, s: Sweep, slot: Slot): real {
    if s.baseline.None? && slot.eccAtStart.None? then 0.0
    else slot.budgetClock(Tried(Slice(c, s, slot))) - slot.budgetClock(0)
  }

  function Budget(c: SweepConfig): real {
    c.sliceBudgetMs / 1000.0
  }

  /** The most pages one slice can check from a cursor. */
  function MostPages(c: SweepConfig, cursor: int): nat
    requires c.pagesPerSlice > 0
  {
    if c.pagesPerSlice < |Tiles(cursor, c.regionBytes)| then c.pagesPerSlice else |Tiles(cursor, c.regionBytes)|
  }

  /** If no page takes longer than `cost`, a slice ends within its budget plus one page. */
  lemma {:induction false} SliceWithinBudget(c: SweepConfig, s: Sweep, slot: Slot, cost: real)
    requires Sensible(c) && s.cursor <= c.regionBytes && cost >= 0.0 && PagesCostAtMost(slot, cost)
    ensures TimeSpent(c, s, slot) <= Budget(c) + cost
  {
    if s.baseline.Some? || slot.eccAtStart.Some? {
      var begun := if s.baseline.None? then s.(baseline := slot.eccAtStart) else s;
      BudgetBeforeLastPage(c, begun, slot, 0);
      var n := Tried(Slice(c, s, slot));
      if n > 0 {
        var k: nat := n - 1;
        assert slot.budgetClock(k + 1) <= slot.budgetClock(k) + cost;
      }
    }
  }

  lemma {:induction false} BudgetBeforeLastPage(c: SweepConfig, s: Sweep, slot: Slot, scanned: nat)
    ensures var n := Tried(ScanFrom(c, s, slot, scanned));
            n > 0 ==> !BudgetSpent(c, slot, scanned + n - 1)
    decreases c.pagesPerSlice - scanned
  {
    var scan := ScanFrom(c, s, slot, scanned);
    if scan.pages != [] {
      BudgetBeforeLastPage(c, Checked(s, scan.pages[0]), slot, scanned + 1);
    }
  }

  lemma {:induction false} TriesAtMost(c: SweepConfig, s: Sweep, slot: Slot, scanned: nat)
    requires scanned <= c.pagesPerSlice
    ensures Tried(ScanFrom(c, s, slot, scanned)) <= c.pagesPerSlice - scanned
    ensures Tried(ScanFrom(c, s, slot, scanned)) <= |Tiles(s.cursor, c.regionBytes)|
    decreases c.pagesPerSlice - scanned
  {
    var scan := ScanFrom(c, s, slot, scanned);
    if scan.pages != [] {
      TriesAtMost(c, Checked(s, scan.pages[0]), slot, scanned + 1);
    }
  }

  lemma {:induction false} ClockAfter(slot: Slot, cost: real, n: nat)
    requires PagesCostAtMost(slot, cost)
    ensures slot.budgetClock(n) - slot.budgetClock(0) <= Times(n, cost)
  {
    if n > 0 {
      var k: nat := n - 1;
      ClockAfter(slot, cost, k);
      assert slot.budgetClock(k + 1) <= slot.budgetClock(k) + cost;
      TimesAdd(k, 1, cost);
    }
  }

  /** With nothing raising and the budget unspent before each of the next pages, a scan checks them all. */
  lemma {:induction false} CalmScanReaches(c: SweepConfig, s: Sweep, slot: Slot, scanned: nat, goal: nat)
    requires Sensible(c) && scanned <= goal <= c.pagesPerSlice
    requires goal - scanned <= |Tiles(s.cursor, c.regionBytes)|
    requires forall o, l :: slot.page(o, l).Read?
    requires forall k: nat :: k < goal ==> !BudgetSpent(c, slot, k)
    ensures |ScanFrom(c, s, slot, scanned).pages| >= goal - scanned
    ensures !ScanFrom(c, s, slot, scanned).raised
    decreases c.pagesPerSlice - scanned
  {
    if scanned < c.pagesPerSlice && s.cursor < c.regionBytes && !BudgetSpent(c, slot, scanned) {
      var length := PageLength(s.cursor, c.regionBytes);
      var p := Page(s.cursor, length, slot.page(s.cursor, length).good);
      CalmScanReaches(c, Checked(s, p), slot, scanned + 1, if scanned < goal then goal else scanned + 1);
    }
  }

  /** Pages of `cost` each until `held` has passed, no time until page `last`, and `cost` for that page. */
  function LateClock(cost: real, held: real, last: nat): nat -> real {
    (k: nat) => if k <= last then (if Times(k, cost) < held then Times(k, cost) else held) else held + cost
  }

  lemma LateClockCosts(cost: real, held: real, last: nat, slot: Slot)
    requires cost >= 0.0 && 0.0 <= held <= Times(last, cost)
    requires slot.budgetClock == LateClock(cost, held, last)
    ensures PagesCostAtMost(slot, cost)
  {
    forall k: nat
      ensures slot.budgetClock(k) <= slot.budgetClock(k + 1) <= slot.budgetClock(k) + cost
    {
      TimesAdd(k, 1, cost);
    }
  }

  /**
   A slot that overruns: when the pages one slice can check may together take longer than the
   budget, some page times within `cost` keep the budget unspent up to the last page and then
   spend more than all of it.
   */
  lemma OverrunningSlot(c: SweepConfig, s: Sweep, cost: real) returns (slot: Slot)
    requires Sensible(c) && s.cursor <= c.regionBytes && cost >= 0.0
    requires Times(MostPages(c, s.cursor), cost) > Budget(c)
    ensures PagesCostAtMost(slot, cost) && TimeSpent(c, s, slot) > Budget(c)
  {
    var pages := MostPages(c, s.cursor);
    assert pages > 0 && cost > 0.0;
    var last: nat := pages - 1;
    TimesAdd(last, 1, cost);
    var held := if Budget(c) < cost then 0.0
                else if Times(last, cost) < Budget(c) - cost / 2.0 then Times(last, cost)
                else Budget(c) - cost / 2.0;
    slot := Slot(LateClock(cost, held, last), (o: int, l: int) => Read(true), Some(Ecc(0, 0)), Some(Ecc(0, 0)));
    LateClockCosts(cost, held, last, slot);
    var begun := if s.baseline.None? then s.(baseline := slot.eccAtStart) else s;
    CalmScanReaches(c, begun, slot, 0, pages);
    TriesAtMost(c, begun, slot, 0);
  }

  /**
   A slice keeps its budget for all page times up to `cost` exactly when the pages it can check,
   at that cost each, fit in the budget. Otherwise some slot overruns, by at most one page.
   */
  lemma SliceKeepsBudgetIff(c: SweepConfig, s: Sweep, cost: real)
    requires Sensible(c) && s.cursor <= c.regionBytes && cost >= 0.0
    ensures (forall slot :: PagesCostAtMost(slot, cost) ==> TimeSpent(c, s, slot) <= Budget(c))
            <==> Times(MostPages(c, s.cursor), cost) <= Budget(c)
  {
    if Times(MostPages(c, s.cursor), cost) <= Budget(c) {
      forall slot | PagesCostAtMost(slot, cost)
        ensures TimeSpent(c, s, slot) <= Budget(c)
      {
        FittingSliceKeepsBudget(c, s, slot, cost);
      }
    } else {
      var slot := OverrunningSlot(c, s, cost);
    }
  }

  lemma FittingSliceKeepsBudget(c: SweepConfig, s: Sweep, slot: Slot, cost: real)
    requires Sensible(c) && s.cursor <= c.regionBytes && cost >= 0.0 && PagesCostAtMost(slot, cost)
    requires Times(MostPages(c, s.cursor), cost) <= Budget(c)
    ensures TimeSpent(c, s, slot) <= Budget(c)
  {
    hide Times, PagesCostAtMost;
    if s.baseline.Some? || slot.eccAtStart.Some? {
      var begun := if s.baseline.None? then s.(baseline := slot.eccAtStart) else s;
      TriesAtMost(c, begun, slot, 0);
      var n := Tried(Slice(c, s, slot));
      ClockAfter(slot, cost, n);
      TimesGrows(n, MostPages(c, s.cursor), cost);
    }
  }

  /**
   When a slot raises, and what it keeps then: the first ECC reading, a page or the last ECC reading is
   what raised, and every page checked before stays checked, so the next slot goes on from there.
   */
  lemma SlotRaisesIff(c: SweepConfig, s: Sweep, slot: Slot, now: real)
    requires Sensible(c) && s.cursor <= c.regionBytes
    ensures var effect, scan := DueSlot(c, s, slot, now), Slice(c, s, slot);
            && (effect.outcome.Raised? <==>
                || (s.baseline.None? && slot.eccAtStart.None?) || scan.raised
                || (scan.sweep.cursor == c.regionBytes && slot.eccAtEnd.None?))
            && (s.baseline.None? && slot.eccAtStart.None? ==> scan.pages == [] && scan.sweep == s)
            && (effect.outcome.Raised? || effect.outcome.results == [] ==>
                  && effect.sweep.pages == s.pages + |effect.pages|
                  && effect.sweep.mismatches == s.mismatches + Bad(effect.pages)
                  && effect.sweep.passIndex == s.passIndex
                  && Spans(effect.pages) + Tiles(effect.sweep.cursor, c.regionBytes) == Tiles(s.cursor, c.regionBytes))
  {
    var begun := if s.baseline.None? then s.(baseline := slot.eccAtStart) else s;
    if begun.baseline.Some? {
      ScanCovers(c, begun, slot, 0);
    } else {
      assert [] + Tiles(s.cursor, c.regionBytes) == Tiles(s.cursor, c.regionBytes);
    }
  }

  // ----- Runs of slots -----

  datatype Visit = Visit(slot: Slot, at: real)

  /** A completed pass: its pages in order, its slots, those that did not raise, and its result. */
  datatype Pass = Pass(pages: seq<Page>, slots: nat, quiet: nat, before: Ecc, after: Ecc, result: CheckResult)

  /** The sweep's state, what it has done in the current pass, and the passes completed so far. */
  datatype Journal = Journal(sweep: Sweep, pages: seq<Page>, slots: nat, quiet: nat, passes: seq<Pass>)

  function Record(c: SweepConfig, j: Journal, v: Visit): Journal {
    var effect := DueSlot(c, j.sweep, v.slot, v.at);
    var pages := j.pages + effect.pages;
    match effect.outcome
    case Raised => Journal(effect.sweep, pages, j.slots + 1, j.quiet, j.passes)
    case Returned(rs) =>
      if rs == [] then Journal(effect.sweep, pages, j.slots + 1, j.quiet + 1, j.passes)
      else
        var before := if j.sweep.baseline.Some? then j.sweep.baseline.value
                      else if v.slot.eccAtStart.Some? then v.slot.eccAtStart.value else Ecc(0, 0);
        var after := if v.slot.eccAtEnd.Some? then v.slot.eccAtEnd.value else Ecc(0, 0);
        Journal(effect.sweep, [], 0, 0,
                j.passes + [Pass(pages, j.slots + 1, j.quiet + 1, before, after, rs[0])])
  }

  function RecordAll(c: SweepConfig, visits: seq<Visit>): Journal {
    if visits == [] then Journal(FRESH_SWEEP, [], 0, 0, [])
    else Record(c, RecordAll(c, visits[..|visits| - 1]), visits[|visits| - 1])
  }

  /** The pass in progress: what has been checked is the region up to the cursor. */
  ghost predicate UnderWay(c: SweepConfig, j: Journal) {
    && 0 <= j.sweep.cursor <= c.regionBytes
    && Spans(j.pages) + Tiles(j.sweep.cursor, c.regionBytes) == Tiles(0, c.regionBytes)
    && j.sweep.pages == |j.pages| && j.sweep.mismatches == Bad(j.pages)
    && |j.pages| <= j.slots * c.pagesPerSlice
    && j.quiet + (if j.sweep.cursor == c.regionBytes then 1 else 0) <= |j.pages|
    && j.sweep.passIndex == |j.passes|
  }

  /**
   A completed pass: its pages are the region's tiles, each once and in order, whatever the slicing
   and the raises; the result carries their number and the mismatches among them; and it took
   between ceil(N / pagesPerSlice) slots and, raising slots aside, N slots.
   */
  ghost predicate WholePass(c: SweepConfig, index: nat, p: Pass) {
    && Spans(p.pages) == Tiles(0, c.regionBytes)
    && p.result.metrics.PassMetrics?
    && p.result.metrics.passIndex == index
    && p.result.metrics.pagesScanned == |Tiles(0, c.regionBytes)|
    && p.result.metrics.mismatches == Bad(p.pages)
    && |Tiles(0, c.regionBytes)| <= p.slots * c.pagesPerSlice
    && p.quiet <= |Tiles(0, c.regionBytes)|
    && p.result.metrics.regionBytes == c.regionBytes
    && p.result.check == "ram" && p.result.subject == ""
    && RisenBy(p.before.correctable, p.after.correctable, p.result.metrics.correctable)
    && RisenBy(p.before.uncorrectable, p.after.uncorrectable, p.result.metrics.uncorrectable)
    && p.result.state == PassState(c, Bad(p.pages), p.result.metrics.correctable, p.result.metrics.uncorrectable)
  }

  /** The count of events between two readings: their difference, or nothing if the counter fell. */
  ghost predicate RisenBy(before: nat, after: nat, count: nat) {
    if after >= before then after == before + count else count == 0
  }

  lemma {:induction false} SpansLength(pages: seq<Page>)
    ensures |Spans(pages)| == |pages|
  {
    if pages != [] {
      SpansLength(pages[..|pages| - 1]);
    }
  }

  /** What one slice does to the pass in progress. */
  lemma SliceKeepsUnderWay(c: SweepConfig, j: Journal, slot: Slot)
    requires Sensible(c) && UnderWay(c, j)
    ensures var scan := Slice(c, j.sweep, slot);
            var k := Journal(scan.sweep, j.pages + scan.pages, j.slots + 1, j.quiet, j.passes);
            && UnderWay(c, k)
            && (!scan.raised && j.sweep.cursor < c.regionBytes ==> j.quiet + 1 <= |k.pages|)
            && (!scan.raised && j.sweep.cursor < c.regionBytes && scan.sweep.cursor < c.regionBytes ==>
                  UnderWay(c, k.(quiet := j.quiet + 1)))
            && (!scan.raised ==> scan.sweep.baseline.Some?)
            && (j.sweep.baseline.Some? ==> scan.sweep.baseline == j.sweep.baseline)
            && (j.sweep.baseline.None? && !scan.raised ==> scan.sweep.baseline == slot.eccAtStart)
  {
    hide UnderWay, Covers, ScanFrom;
    if j.sweep.baseline.None? && slot.eccAtStart.None? {
      assert j.pages + [] == j.pages;
      SlotWithoutPages(c, j, j.sweep);
    } else {
      var s := if j.sweep.baseline.None? then j.sweep.(baseline := slot.eccAtStart) else j.sweep;
      CursorInRegion(c, j);
      ScanCovers(c, s, slot, 0);
      ScanKeepsUnderWay(c, j, s, ScanFrom(c, s, slot, 0));
      ScanKeepsBaseline(c, s, ScanFrom(c, s, slot, 0));
    }
  }

  lemma CursorInRegion(c: SweepConfig, j: Journal)
    requires UnderWay(c, j)
    ensures 0 <= j.sweep.cursor <= c.regionBytes
  {
  }

  lemma ScanKeepsBaseline(c: SweepConfig, s: Sweep, scan: Scan)
    requires Covers(c, s, scan)
    ensures scan.sweep.baseline == s.baseline
  {
  }

  lemma SlotWithoutPages(c: SweepConfig, j: Journal, s: Sweep)
    requires Sensible(c) && UnderWay(c, j) && s == j.sweep
    ensures UnderWay(c, Journal(s, j.pages, j.slots + 1, j.quiet, j.passes))
  {
    OneMoreSlot(j.slots, c.pagesPerSlice);
  }

  lemma ScanKeepsUnderWay(c: SweepConfig, j: Journal, s: Sweep, scan: Scan)
    requires Sensible(c) && UnderWay(c, j) && s == j.sweep.(baseline := s.baseline)
    requires Covers(c, s, scan) && |scan.pages| <= c.pagesPerSlice && (scan.pages == [] ==> scan.sweep == s)
    ensures var k := Journal(scan.sweep, j.pages + scan.pages, j.slots + 1, j.quiet, j.passes);
            && UnderWay(c, k)
            && (scan.pages != [] ==> j.quiet + 1 <= |k.pages|)
            && (scan.pages != [] && scan.sweep.cursor < c.regionBytes ==> UnderWay(c, k.(quiet := j.quiet + 1)))
  {
    PagesConcat(j.pages, scan.pages);
    assert Spans(j.pages) + Spans(scan.pages) + Tiles(scan.sweep.cursor, c.regionBytes)
        == Spans(j.pages) + (Spans(scan.pages) + Tiles(scan.sweep.cursor, c.regionBytes));
    OneMoreSlot(j.slots, c.pagesPerSlice);
  }

  lemma OneMoreSlot(slots: nat, perSlice: nat)
    ensures (slots + 1) * perSlice == slots * perSlice + perSlice
  {
  }

  lemma RecordKeeps(c: SweepConfig, j: Journal, v: Visit)
    requires Sensible(c) && UnderWay(c, j)
    ensures var k := Record(c, j, v);
            && UnderWay(c, k)
            && |j.passes| <= |k.passes| <= |j.passes| + 1 && k.passes[..|j.passes|] == j.passes
            && (|k.passes| > |j.passes| ==> WholePass(c, |j.passes|, k.passes[|j.passes|]))
  {
    hide ScanFrom;
    SliceKeepsUnderWay(c, j, v.slot);
    var scan := Slice(c, j.sweep, v.slot);
    var pages := j.pages + scan.pages;
    SpansLength(pages);
    if !scan.raised && scan.sweep.cursor == c.regionBytes {
      assert Spans(pages) + [] == Spans(pages);
    }
  }

  /**
   Sliced sweep equals one-shot sweep, over every run of due slots, with any budget-clock
   readings and any raises in between.
   */
  lemma {:induction false} EveryPassIsWhole(c: SweepConfig, visits: seq<Visit>)
    requires Sensible(c)
    ensures var j := RecordAll(c, visits);
            && UnderWay(c, j)
            && forall i :: 0 <= i < |j.passes| ==> WholePass(c, i, j.passes[i])
  {
    hide UnderWay, WholePass, Record;
    if visits == [] {
      NothingUnderWay(c);
    } else {
      var front := RecordAll(c, visits[..|visits| - 1]);
      EveryPassIsWhole(c, visits[..|visits| - 1]);
      RecordKeeps(c, front, visits[|visits| - 1]);
      var j := RecordAll(c, visits);
      forall i | 0 <= i < |j.passes|
        ensures WholePass(c, i, j.passes[i])
      {
        if i < |front.passes| {
          assert j.passes[i] == j.passes[..|front.passes|][i];
        }
      }
    }
  }

  lemma {:induction false} BadIffSomeBad(pages: seq<Page>)
    ensures Bad(pages) > 0 <==> exists k :: 0 <= k < |pages| && !pages[k].good
  {
    if pages != [] {
      var front := pages[..|pages| - 1];
      BadIffSomeBad(front);
      if exists k :: 0 <= k < |front| && !front[k].good {
        var k :| 0 <= k < |front| && !front[k].good;
        assert !pages[k].good;
      }
    }
  }

  /**
   What a completed pass is reported as, from the pages it checked and the snapshots around it:
   FAULT for enough new uncorrectable events or any bad page, otherwise DEGRADED for enough new
   correctable events, otherwise OK.
   */
  lemma PassVerdict(c: SweepConfig, visits: seq<Visit>, i: nat)
    requires Sensible(c) && i < |RecordAll(c, visits).passes|
    ensures var p := RecordAll(c, visits).passes[i];
            p.result.metrics.PassMetrics? &&
            var faulty := || p.result.metrics.uncorrectable >= c.uncorrectableFault
                          || exists k :: 0 <= k < |p.pages| && !p.pages[k].good;
            var warned := p.result.metrics.correctable >= c.correctableWarn;
            && RisenBy(p.before.uncorrectable, p.after.uncorrectable, p.result.metrics.uncorrectable)
            && RisenBy(p.before.correctable, p.after.correctable, p.result.metrics.correctable)
            && p.result.state == if faulty then Fault else if warned then Degraded else Ok
  {
    hide RecordAll, UnderWay, Bad;
    EveryPassIsWhole(c, visits);
    BadIffSomeBad(RecordAll(c, visits).passes[i].pages);
  }

  lemma NothingUnderWay(c: SweepConfig)
    requires Sensible(c)
    ensures UnderWay(c, RecordAll(c, []))
  {
  }

  // ----- Unchanged memory: the same pages as one uninterrupted scan -----

  ghost predicate Remembers(slot: Slot, good: (int, int) -> bool) {
    forall o, l :: slot.page(o, l).Read? ==> slot.page(o, l).good == good(o, l)
  }

  ghost predicate Honest(pages: seq<Page>, good: (int, int) -> bool) {
    forall i :: 0 <= i < |pages| ==> pages[i].good == good(pages[i].offset, pages[i].length)
  }

  /** A slot in which nothing raises and no time passes. */
  function CalmSlot(good: (int, int) -> bool): Slot {
    Slot((_: nat) => 0.0, (o: int, l: int) => Read(good(o, l)), Some(Ecc(0, 0)), Some(Ecc(0, 0)))
  }

  /** One scan of the whole region in a single slice. */
  function FullScan(c: SweepConfig, good: (int, int) -> bool): Scan {
    ScanFrom(c.(pagesPerSlice := |Tiles(0, c.regionBytes)|), FRESH_SWEEP, CalmSlot(good), 0)
  }

  lemma {:induction false} CalmScanFinishes(c: SweepConfig, s: Sweep, good: (int, int) -> bool, scanned: nat)
    requires Sensible(c) && s.cursor <= c.regionBytes
    requires scanned + |Tiles(s.cursor, c.regionBytes)| == c.pagesPerSlice
    ensures ScanFrom(c, s, CalmSlot(good), scanned).sweep.cursor == c.regionBytes
    decreases |Tiles(s.cursor, c.regionBytes)|
  {
    if s.cursor < c.regionBytes {
      var length := PageLength(s.cursor, c.regionBytes);
      CalmScanFinishes(c, Checked(s, Page(s.cursor, length, good(s.cursor, length))), good, scanned + 1);
    }
  }

  lemma FullScanCoversRegion(c: SweepConfig, good: (int, int) -> bool)
    requires Sensible(c)
    ensures Spans(FullScan(c, good).pages) == Tiles(0, c.regionBytes)
    ensures Honest(FullScan(c, good).pages, good)
    ensures FullScan(c, good).sweep.mismatches == Bad(FullScan(c, good).pages)
  {
    var whole := c.(pagesPerSlice := |Tiles(0, c.regionBytes)|);
    CalmScanFinishes(whole, FRESH_SWEEP, good, 0);
    ScanCovers(whole, FRESH_SWEEP, CalmSlot(good), 0);
    assert Tiles(c.regionBytes, c.regionBytes) == [];
    assert Spans(FullScan(c, good).pages) + [] == Spans(FullScan(c, good).pages);
  }

  lemma {:induction false} SpansAndMemoryFixPages(a: seq<Page>, b: seq<Page>, good: (int, int) -> bool)
    requires Honest(a, good) && Honest(b, good) && Spans(a) == Spans(b)
    ensures a == b
  {
    SpansLength(a);
    SpansLength(b);
    if a != [] {
      var m := |a| - 1;
      assert Spans(a)[..m] == Spans(a[..m]) && Spans(b)[..m] == Spans(b[..m]) by {
        SpansLength(a[..m]);
        SpansLength(b[..m]);
      }
      SpansAndMemoryFixPages(a[..m], b[..m], good);
      assert Spans(a)[m] == Spans(b)[m];
      assert a == a[..m] + [a[m]] && b == b[..m] + [b[m]];
    }
  }

  lemma RecordIsHonest(c: SweepConfig, j: Journal, v: Visit, good: (int, int) -> bool)
    requires Sensible(c) && UnderWay(c, j) && Remembers(v.slot, good) && Honest(j.pages, good)
    ensures var k := Record(c, j, v);
            && Honest(k.pages, good)
            && (|k.passes| > |j.passes| ==>
                  k.passes[..|j.passes|] == j.passes && Honest(k.passes[|j.passes|].pages, good))
  {
    var s := if j.sweep.baseline.None? then j.sweep.(baseline := v.slot.eccAtStart) else j.sweep;
    if s.baseline.Some? {
      ScanCovers(c, s, v.slot, 0);
    }
    var pages := Slice(c, j.sweep, v.slot).pages;
    forall i | 0 <= i < |pages|
      ensures pages[i].good == good(pages[i].offset, pages[i].length)
    {
      assert pages[i] in pages;
    }
    assert Honest(j.pages + pages, good);
  }

  lemma {:induction false} EveryPassIsHonest(c: SweepConfig, visits: seq<Visit>, good: (int, int) -> bool)
    requires Sensible(c) && forall v :: v in visits ==> Remembers(v.slot, good)
    ensures var j := RecordAll(c, visits);
            Honest(j.pages, good) && forall i :: 0 <= i < |j.passes| ==> Honest(j.passes[i].pages, good)
  {
    hide Record, Honest, UnderWay, Remembers, WholePass;
    if visits == [] {
      assert Honest([], good) by { NoPagesAreHonest(good); }
    } else {
      var front, v := visits[..|visits| - 1], visits[|visits| - 1];
      EveryPassIsHonest(c, front, good);
      EveryPassIsWhole(c, front);
      RecordKeeps(c, RecordAll(c, front), v);
      RecordIsHonest(c, RecordAll(c, front), v, good);
      var j, before := RecordAll(c, visits), RecordAll(c, front);
      forall i | 0 <= i < |j.passes|
        ensures Honest(j.passes[i].pages, good)
      {
        if i < |before.passes| {
          assert j.passes[i] == j.passes[..|before.passes|][i];
        }
      }
    }
  }

  lemma NoPagesAreHonest(good: (int, int) -> bool)
    ensures Honest([], good)
  {
  }

  /**
   While memory does not change, every completed pass checked exactly the pages one
   uninterrupted scan checks, and reports that scan's mismatch count.
   */
  lemma SlicedEqualsOneShot(c: SweepConfig, visits: seq<Visit>, good: (int, int) -> bool, i: nat)
    requires Sensible(c) && forall v :: v in visits ==> Remembers(v.slot, good)
    requires i < |RecordAll(c, visits).passes|
    ensures var pass := RecordAll(c, visits).passes[i];
            && pass.pages == FullScan(c, good).pages
            && pass.result.metrics.PassMetrics?
            && pass.result.metrics.mismatches == FullScan(c, good).sweep.mismatches
  {
    hide RecordAll, FullScan, Honest, Remembers, UnderWay;
    EveryPassIsWhole(c, visits);
    EveryPassIsHonest(c, visits, good);
    FullScanCoversRegion(c, good);
    SpansAndMemoryFixPages(RecordAll(c, visits).passes[i].pages, FullScan(c, good).pages, good);
  }

  // ----- ECC events are neither lost nor counted twice -----

  datatype Counter = CorrectableEvents | UncorrectableEvents

  function Reading(e: Ecc, k: Counter): nat {
    if k.CorrectableEvents? then e.correctable else e.uncorrectable
  }

  /** The deltas the completed passes reported, added up. */
  function TotalReported(passes: seq<Pass>, k: Counter): nat {
    if passes == [] then 0
    else
      var m := passes[|passes| - 1].result.metrics;
      TotalReported(passes[..|passes| - 1], k) +
      if !m.PassMetrics? then 0 else if k.CorrectableEvents? then m.correctable else m.uncorrectable
  }

  /** Each pass starts from the snapshot the previous one ended with. */
  ghost predicate Chained(passes: seq<Pass>) {
    forall i :: 0 < i < |passes| ==> passes[i].before == passes[i - 1].after
  }

  lemma RecordChains(c: SweepConfig, j: Journal, v: Visit)
    requires Sensible(c) && UnderWay(c, j) && Chained(j.passes)
    requires j.passes != [] ==> j.sweep.baseline == Some(j.passes[|j.passes| - 1].after)
    ensures var k := Record(c, j, v);
            && Chained(k.passes)
            && (k.passes != [] ==> k.sweep.baseline == Some(k.passes[|k.passes| - 1].after))
  {
    hide ScanFrom, UnderWay;
    SliceKeepsUnderWay(c, j, v.slot);
    if j.sweep.baseline.Some? {
      ScanKeepsSomeBaseline(c, j, v.slot);
    }
  }

  lemma ScanKeepsSomeBaseline(c: SweepConfig, j: Journal, slot: Slot)
    requires Sensible(c) && UnderWay(c, j) && j.sweep.baseline.Some?
    ensures Slice(c, j.sweep, slot).sweep.baseline == j.sweep.baseline
  {
    ScanCovers(c, j.sweep, slot, 0);
  }

  lemma {:induction false} PassesChain(c: SweepConfig, visits: seq<Visit>)
    requires Sensible(c)
    ensures var j := RecordAll(c, visits);
            && Chained(j.passes)
            && (j.passes != [] ==> j.sweep.baseline == Some(j.passes[|j.passes| - 1].after))
  {
    hide Record, UnderWay, Chained;
    if visits == [] {
      assert Chained([]) by { NoPassesChain(); }
    } else {
      PassesChain(c, visits[..|visits| - 1]);
      EveryPassIsWhole(c, visits[..|visits| - 1]);
      RecordChains(c, RecordAll(c, visits[..|visits| - 1]), visits[|visits| - 1]);
    }
  }

  lemma NoPassesChain()
    ensures Chained([])
  {
  }

  lemma {:induction false} TelescopedDeltas(c: SweepConfig, passes: seq<Pass>, k: Counter)
    requires passes != [] && Chained(passes) && forall i :: 0 <= i < |passes| ==> WholePass(c, i, passes[i])
    ensures var span := Reading(passes[|passes| - 1].after, k) - Reading(passes[0].before, k);
            && TotalReported(passes, k) >= span
            && (TotalReported(passes, k) == span <==>
                forall i :: 0 <= i < |passes| ==> Reading(passes[i].before, k) <= Reading(passes[i].after, k))
  {
    var n := |passes| - 1;
    var front := passes[..n];
    if n == 0 {
      assert TotalReported(front, k) == 0;
    } else {
      TelescopedDeltas(c, front, k);
      assert forall i :: 0 <= i < n ==> passes[i] == front[i];
    }
  }

  /**
   ECC conservation: over any run, what the completed passes reported adds up to the last
   snapshot minus the first baseline exactly when no pass saw the counter go backwards, as
   counters that only grow since boot never do. It is never less.
   */
  lemma EccConserved(c: SweepConfig, visits: seq<Visit>, k: Counter)
    requires Sensible(c) && RecordAll(c, visits).passes != []
    ensures var passes := RecordAll(c, visits).passes;
            var span := Reading(passes[|passes| - 1].after, k) - Reading(passes[0].before, k);
            && TotalReported(passes, k) >= span
            && (TotalReported(passes, k) == span <==>
                forall i :: 0 <= i < |passes| ==> Reading(passes[i].before, k) <= Reading(passes[i].after, k))
  {
    hide RecordAll, UnderWay, WholePass, TotalReported;
    PassesChain(c, visits);
    EveryPassIsWhole(c, visits);
    TelescopedDeltas(c, RecordAll(c, visits).passes, k);
  }
}
