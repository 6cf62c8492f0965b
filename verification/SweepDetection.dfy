/**
 How long a corrupt page goes unreported: through the slices of the sweep, and under the control loop.
 */
module SweepDetection {
  import opened HealthTypes
  import opened IntervalTimers
  import opened SweepSpec
  import opened SweepRuns
  import S = Scheduler

  ghost function EffectAt(c: SweepConfig, visits: seq<Visit>, k: nat): SlotEffect
    requires k < |visits|
  {
    DueSlot(c, RecordAll(c, visits[..k]).sweep, visits[k].slot, visits[k].at)
  }

  /** Visit k reports one result, a FAULT. */
  ghost predicate FaultAt(c: SweepConfig, visits: seq<Visit>, k: nat)
    requires k < |visits|
  {
    var outcome := EffectAt(c, visits, k).outcome;
    outcome.Returned? && |outcome.results| == 1 && outcome.results[0].state == Fault
    && outcome.results[0].at == visits[k].at
  }

  /** How many of the visits from v up to w do not raise. */
  ghost function CalmVisits(c: SweepConfig, visits: seq<Visit>, v: nat, w: nat): nat
    requires v <= w <= |visits|
  {
    if w == v then 0
    else CalmVisits(c, visits, v, w - 1) + if EffectAt(c, visits, w - 1).outcome.Raised? then 0 else 1
  }

  /** Wherever the tile is among the pages, it was found bad. */
  ghost predicate FoundBad(pages: seq<Page>, tile: Span) {
    forall p :: p in pages && p.offset == tile.offset && p.length == tile.length ==> !p.good
  }

  lemma {:induction false} SpansComeFromPages(pages: seq<Page>, tile: Span)
    requires tile in Spans(pages)
    ensures exists k :: 0 <= k < |pages| && Span(pages[k].offset, pages[k].length) == tile
  {
    var front, last := pages[..|pages| - 1], pages[|pages| - 1];
    if tile in Spans(front) {
      SpansComeFromPages(front, tile);
      var k :| 0 <= k < |front| && Span(front[k].offset, front[k].length) == tile;
      assert pages[k] == front[k];
    } else {
      assert Span(last.offset, last.length) == tile;
    }
  }

  /** A pass that checked the tile, and found it bad wherever it did, counts a mismatch. */
  lemma BadTileCounts(pages: seq<Page>, tile: Span)
    requires tile in Spans(pages) && FoundBad(pages, tile)
    ensures Bad(pages) > 0
  {
    SpansComeFromPages(pages, tile);
    var k :| 0 <= k < |pages| && Span(pages[k].offset, pages[k].length) == tile;
    assert pages[k] in pages;
    BadIffSomeBad(pages);
  }

  /** A slot in which the tile is bad adds nothing good about it. */
  lemma SliceFindsBad(c: SweepConfig, j: Journal, slot: Slot, tile: Span)
    requires Sensible(c) && UnderWay(c, j) && FoundBad(j.pages, tile)
    requires slot.page(tile.offset, tile.length) != Read(true)
    ensures FoundBad(j.pages + Slice(c, j.sweep, slot).pages, tile)
  {
    var s := if j.sweep.baseline.None? then j.sweep.(baseline := slot.eccAtStart) else j.sweep;
    if s.baseline.Some? {
      ScanCovers(c, s, slot, 0);
    }
  }

  /** Since visit v no FAULT was reported, and the calm visits so far fit the passes they belong to. */
  ghost predicate Unreported(c: SweepConfig, visits: seq<Visit>, tile: Span, v: nat, w: nat)
    requires v <= w <= |visits|
  {
    var j, passes := RecordAll(c, visits[..w]), |RecordAll(c, visits[..v]).passes|;
    var all := |Tiles(0, c.regionBytes)|;
    || (|j.passes| == passes && CalmVisits(c, visits, v, w) <= j.quiet)
    || (|j.passes| == passes + 1 && CalmVisits(c, visits, v, w) <= all + j.quiet && FoundBad(j.pages, tile))
  }

  lemma {:induction false} ReportedOrUnderWay(c: SweepConfig, visits: seq<Visit>, tile: Span, v: nat, w: nat)
    requires Sensible(c) && v <= w <= |visits| && tile in Tiles(0, c.regionBytes)
    requires forall k :: v <= k < w ==> visits[k].slot.page(tile.offset, tile.length) != Read(true)
    ensures Unreported(c, visits, tile, v, w) || exists k :: v <= k < w && FaultAt(c, visits, k)
    decreases w
  {
    hide FaultAt, Unreported;
    if w == v {
      UnreportedAtFirst(c, visits, tile, v);
    } else {
      ReportedOrUnderWay(c, visits, tile, v, w - 1);
      if Unreported(c, visits, tile, v, w - 1) {
        OneMoreVisit(c, visits, tile, v, w - 1);
      }
    }
  }

  lemma UnreportedAtFirst(c: SweepConfig, visits: seq<Visit>, tile: Span, v: nat)
    requires v <= |visits|
    ensures Unreported(c, visits, tile, v, v)
  {
  }

  lemma OneMoreVisit(c: SweepConfig, visits: seq<Visit>, tile: Span, v: nat, w: nat)
    requires Sensible(c) && v <= w < |visits| && tile in Tiles(0, c.regionBytes)
    requires visits[w].slot.page(tile.offset, tile.length) != Read(true)
    requires Unreported(c, visits, tile, v, w)
    ensures Unreported(c, visits, tile, v, w + 1) || FaultAt(c, visits, w)
  {
    hide UnderWay, WholePass, Slice, FoundBad;
    var j := RecordAll(c, visits[..w]);
    assert visits[..w + 1][..w] == visits[..w];
    EveryPassIsWhole(c, visits[..w]);
    RecordKeeps(c, j, visits[w]);
    NothingFoundYet(tile);
    if |j.passes| > |RecordAll(c, visits[..v]).passes| {
      SliceFindsBad(c, j, visits[w].slot, tile);
    }
    if EffectAt(c, visits, w).outcome.Returned? && EffectAt(c, visits, w).outcome.results != [] {
      CompletedPass(c, j, visits[w], tile);
    }
  }

  lemma NothingFoundYet(tile: Span)
    ensures FoundBad([], tile)
  {
  }

  /** A pass that ends has taken at most N calm visits, and is a FAULT if it found the tile bad. */
  lemma CompletedPass(c: SweepConfig, j: Journal, v: Visit, tile: Span)
    requires Sensible(c) && UnderWay(c, j) && tile in Tiles(0, c.regionBytes)
    requires var outcome := DueSlot(c, j.sweep, v.slot, v.at).outcome; outcome.Returned? && outcome.results != []
    ensures j.quiet + 1 <= |Tiles(0, c.regionBytes)|
    ensures var results := DueSlot(c, j.sweep, v.slot, v.at).outcome.results;
            && |results| == 1 && results[0].at == v.at
            && (FoundBad(j.pages + Slice(c, j.sweep, v.slot).pages, tile) ==> results[0].state == Fault)
  {
    hide UnderWay, Slice, FoundBad;
    RecordKeeps(c, j, v);
    var k := Record(c, j, v);
    var pass := k.passes[|j.passes|];
    if FoundBad(pass.pages, tile) {
      BadTileCounts(pass.pages, tile);
    }
  }

  /**
   A page of the region that no read finds good from visit v on is reported as a FAULT before 2N
   visits since then have passed without raising, N being the region's pages, however the slices are
   cut and whatever else raises.
   */
  lemma CorruptionReported(c: SweepConfig, visits: seq<Visit>, tile: Span, v: nat, w: nat) returns (k: nat)
    requires Sensible(c) && v <= w <= |visits| && tile in Tiles(0, c.regionBytes)
    requires forall k :: v <= k < w ==> visits[k].slot.page(tile.offset, tile.length) != Read(true)
    requires CalmVisits(c, visits, v, w) >= 2 * |Tiles(0, c.regionBytes)|
    ensures v <= k < w && FaultAt(c, visits, k)
  {
    hide FaultAt, FoundBad, CalmVisits;
    ReportedOrUnderWay(c, visits, tile, v, w);
    EveryPassIsWhole(c, visits[..w]);
    QuietIsShort(c, RecordAll(c, visits[..w]));
    k :| v <= k < w && FaultAt(c, visits, k);
  }

  lemma QuietIsShort(c: SweepConfig, j: Journal)
    requires Sensible(c) && UnderWay(c, j)
    ensures j.quiet < |Tiles(0, c.regionBytes)|
  {
    SpansLength(j.pages);
    assert |Spans(j.pages)| + |Tiles(j.sweep.cursor, c.regionBytes)| == |Tiles(0, c.regionBytes)|;
  }

  // ----- Under the control loop -----

  /** A slot in which nothing raises and the tile is bad. */
  ghost predicate CalmAndBad(slot: Slot, tile: Span) {
    && (forall o, l :: slot.page(o, l).Read?) && slot.eccAtStart.Some? && slot.eccAtEnd.Some?
    && slot.page(tile.offset, tile.length) == Read(false)
  }

  lemma {:induction false} CalmScanEnds(c: SweepConfig, s: Sweep, slot: Slot, scanned: nat)
    requires forall o, l :: slot.page(o, l).Read?
    ensures !ScanFrom(c, s, slot, scanned).raised
    decreases c.pagesPerSlice - scanned
  {
    var length := PageLength(s.cursor, c.regionBytes);
    if scanned < c.pagesPerSlice && slot.page(s.cursor, length).Read? {
      CalmScanEnds(c, Checked(s, Page(s.cursor, length, slot.page(s.cursor, length).good)), slot, scanned + 1);
    }
  }

  lemma {:induction false} CalmVisitsCount(c: SweepConfig, visits: seq<Visit>, tile: Span, v: nat, w: nat)
    requires v <= w <= |visits| && forall k :: v <= k < w ==> CalmAndBad(visits[k].slot, tile)
    ensures CalmVisits(c, visits, v, w) == w - v
  {
    if w > v {
      CalmVisitsCount(c, visits, tile, v, w - 1);
      var s, slot := RecordAll(c, visits[..w - 1]).sweep, visits[w - 1].slot;
      assert CalmAndBad(slot, tile);
      CalmScanEnds(c, if s.baseline.None? then s.(baseline := slot.eccAtStart) else s, slot, 0);
    }
  }

  /** The sweep is check number `check` of the run; visit k is its service in round rounds[k], and none is left out. */
  ghost predicate Sweeps(run: S.Run, check: nat, visits: seq<Visit>, rounds: seq<nat>) {
    && S.Legal(run) && check < |run.initial| && |rounds| == |visits|
    && (forall k :: 0 <= k < |rounds| ==> rounds[k] < |run.rounds|)
    && (forall k :: 0 <= k < |rounds| ==> S.ServedIn(run, rounds[k], check)
                                          && visits[k].at == run.rounds[rounds[k]].polls[check])
    && (forall k :: 0 < k < |rounds| ==> NextService(run, check, rounds[k - 1], rounds[k]))
  }

  ghost predicate NextService(run: S.Run, check: nat, r: nat, i: nat)
    requires i <= |run.rounds| && check < |run.initial|
  {
    r < i && forall e :: r < e < i ==> !S.ServedIn(run, e, check)
  }

  /** The longest time between two visits. */
  function VisitGap(c: SweepConfig, run: S.Run): real {
    c.scanPeriod + 2.0 * run.work
  }

  lemma {:induction false} VisitsFollow(c: SweepConfig, run: S.Run, check: nat, visits: seq<Visit>, rounds: seq<nat>,
                                        a: nat, b: nat)
    requires Sweeps(run, check, visits, rounds) && run.initial[check].period == c.scanPeriod
    requires a <= b < |visits|
    ensures visits[a].at <= visits[b].at <= visits[a].at + Times(b - a, VisitGap(c, run))
    decreases b
  {
    hide S.ServedIn, S.Legal;
    if a < b {
      VisitsFollow(c, run, check, visits, rounds, a, b - 1);
      assert NextService(run, check, rounds[b - 1], rounds[b]);
      S.ServiceGap(run, rounds[b - 1], rounds[b], check);
      S.PeriodsArePositive(run, check);
      TimesAdd(b - 1 - a, 1, VisitGap(c, run));
      OnceIsWhole(VisitGap(c, run));
    } else {
      ZeroTimes(VisitGap(c, run));
    }
  }

  /**
   End-to-end detection of corruption: a page that is bad from instant t on, while nothing raises, is
   reported as a FAULT within 2N services of the sweep, N being the region's pages, hence within 2N
   times the scan period plus twice a round's work of t, if the sweep was serviced before t at all.
   `v` is the first visit at or after t.
   */
  lemma CorruptionLatency(c: SweepConfig, run: S.Run, check: nat, visits: seq<Visit>, rounds: seq<nat>,
                          tile: Span, t: real, v: nat) returns (k: nat)
    requires Sensible(c) && Sweeps(run, check, visits, rounds) && run.initial[check].period == c.scanPeriod
    requires tile in Tiles(0, c.regionBytes)
    requires forall e :: 0 <= e < |visits| && visits[e].at >= t ==> CalmAndBad(visits[e].slot, tile)
    requires v + 2 * |Tiles(0, c.regionBytes)| <= |visits|
    requires visits[v].at >= t && (v > 0 ==> visits[v - 1].at < t)
    ensures v <= k < v + 2 * |Tiles(0, c.regionBytes)| && FaultAt(c, visits, k)
    ensures visits[k].at <= visits[v].at + Times(k - v, VisitGap(c, run))
    ensures v > 0 ==> visits[k].at < t + Times(2 * |Tiles(0, c.regionBytes)|, VisitGap(c, run))
  {
    hide FaultAt, CalmVisits, S.Legal, S.ServedIn, NextService, Times;
    var w := v + 2 * |Tiles(0, c.regionBytes)|;
    forall e | v <= e < w
      ensures CalmAndBad(visits[e].slot, tile)
    {
      VisitsFollow(c, run, check, visits, rounds, v, e);
    }
    CalmVisitsCount(c, visits, tile, v, w);
    k := CorruptionReported(c, visits, tile, v, w);
    VisitsFollow(c, run, check, visits, rounds, v, k);
    if v > 0 {
      VisitsFollow(c, run, check, visits, rounds, v - 1, k);
      GapIsPositive(c, run, check);
      TimesGrows(k - v + 1, 2 * |Tiles(0, c.regionBytes)|, VisitGap(c, run));
    }
  }

  lemma GapIsPositive(c: SweepConfig, run: S.Run, check: nat)
    requires S.Legal(run) && check < |run.initial| && run.initial[check].period == c.scanPeriod
    ensures VisitGap(c, run) > 0.0
  {
  }
}
