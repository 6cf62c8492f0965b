/**
 The monotonic interval timer shared by the checks: a cadence, and an optional
 expiry window (src/health_monitor/common/interval_timer.py). Clock readings are
 reals passed in by the caller, one per call that reads the clock.
 */
module IntervalTimers {
  import opened Outcomes

  datatype TimerTick = TimerTick(
    now: real,
    due: bool,
    elapsedSinceService: real,
    overdueBy: real,
    missedSlots: nat,
    expiryEnabled: bool,
    expired: bool,
    timeSinceRefresh: Option<real>)

  datatype TimerError = BadPeriod(period: real) | BadExpiry(expiry: real)

  function Max(a: real, b: real): real {
    if b > a then b else a
  }

  function Min(a: real, b: real): real {
    if b < a then b else a
  }

  /** The whole state of a timer. */
  datatype Timer = Timer(period: real, expiry: Option<real>, lastService: real, lastRefresh: real) {

    ghost predicate Legal() {
      period > 0.0 && (expiry.Some? ==> expiry.value > 0.0)
    }

    predicate Due(now: real) {
      now - lastService >= period
    }

    predicate Expired(now: real) {
      expiry.Some? && now - lastRefresh > expiry.value
    }

    function TimeSinceRefresh(now: real): Option<real> {
      if expiry.Some? then Some(now - lastRefresh) else None
    }

    function OverdueBy(now: real): real {
      if Due(now) then Max(0.0, now - lastService - period) else 0.0
    }

    function MissedSlots(now: real): nat
      requires period > 0.0
    {
      var slots := ((now - lastService) / period).Floor - 1;
      if Due(now) && slots > 0 then slots else 0
    }

    function Poll(now: real): TimerTick
      requires period > 0.0
    {
      TimerTick(now, Due(now), now - lastService, OverdueBy(now), MissedSlots(now),
                expiry.Some?, Expired(now), TimeSinceRefresh(now))
    }

    function MarkServiced(now: real): Timer {
      this.(lastService := now)
    }

    function Refresh(now: real): Timer {
      this.(lastRefresh := now)
    }

    function SecondsUntilDue(now: real): real {
      Max(0.0, period - (now - lastService))
    }

    /** What a whole service call of a check does to its cadence timer. */
    function Served(now: real): Timer {
      if Due(now) then MarkServiced(now) else this
    }
  }

  function NewTimer(period: real, expiry: Option<real>, now: real, startDue: bool): Timer {
    Timer(period, expiry, if startDue then now - period else now, now)
  }

  class IntervalTimer {
    const period: real
    const expiry: Option<real>
    var lastService: real
    var lastRefresh: real

    /** The period and window never change, so neither does their legality. */
    ghost predicate Legal() {
      period > 0.0 && (expiry.Some? ==> expiry.value > 0.0)
    }

    ghost function View(): Timer
      reads this
    {
      Timer(period, expiry, lastService, lastRefresh)
    }

    constructor (period: real, expiry: Option<real>, now: real, startDue: bool)
      requires NewTimer(period, expiry, now, startDue).Legal()
      ensures View() == NewTimer(period, expiry, now, startDue)
    {
      this.period, this.expiry := period, expiry;
      lastService := if startDue then now - period else now;
      lastRefresh := now;
    }

    /** Construction with the source's checks: a nonsensical period or expiry is refused. */
    static method Create(period: real, expiry: Option<real>, now: real, startDue: bool)
        returns (r: Result<IntervalTimer, TimerError>)
      ensures r.Success? <==> NewTimer(period, expiry, now, startDue).Legal()
      ensures r.Success? ==> fresh(r.value) && r.value.View() == NewTimer(period, expiry, now, startDue)
      ensures r.Failure? ==> r.error == if period <= 0.0 then BadPeriod(period) else BadExpiry(expiry.value)
    {
      if period <= 0.0 {
        return Failure(BadPeriod(period));
      }
      if expiry.Some? && expiry.value <= 0.0 {
        return Failure(BadExpiry(expiry.value));
      }
      var t := new IntervalTimer(period, expiry, now, startDue);
      return Success(t);
    }

    function Poll(now: real): (tick: TimerTick)
      requires Legal()
      reads this
      ensures tick == View().Poll(now)
    {
      var elapsed := now - lastService;
      var due := elapsed >= period;
      var overdueBy := if due then Max(0.0, elapsed - period) else 0.0;
      var missed := if due && (elapsed / period).Floor - 1 > 0 then (elapsed / period).Floor - 1 else 0;
      if expiry == None then
        TimerTick(now, due, elapsed, overdueBy, missed, false, false, None)
      else
        var sinceRefresh := now - lastRefresh;
        TimerTick(now, due, elapsed, overdueBy, missed, true, sinceRefresh > expiry.value, Some(sinceRefresh))
    }

    method MarkServiced(now: real)
      modifies this
      ensures View() == old(View()).MarkServiced(now)
    {
      lastService := now;
    }

    method Refresh(now: real)
      modifies this
      ensures View() == old(View()).Refresh(now)
    {
      lastRefresh := now;
    }

    method Reset(now: real)
      modifies this
      ensures View() == old(View()).MarkServiced(now).Refresh(now)
    {
      lastService := now;
      lastRefresh := now;
    }

    function SecondsUntilDue(now: real): (s: real)
      reads this
      ensures s == View().SecondsUntilDue(now)
    {
      Max(0.0, period - (now - lastService))
    }
  }

  // ----- What one reading means -----

  /** A timer that starts due is due from its creation on, any other a period later; both expire alike. */
  lemma NewTimerDue(period: real, expiry: Option<real>, now: real, startDue: bool, at: real)
    requires NewTimer(period, expiry, now, startDue).Legal()
    ensures var tick := NewTimer(period, expiry, now, startDue).Poll(at);
            && (tick.due <==> at >= if startDue then now else now + period)
            && (tick.expired <==> expiry.Some? && at > now + expiry.value)
  {
  }

  /** A poll after a service measures the cadence from it, and the expiry as if there had been none. */
  lemma PollAfterService(t: Timer, served: real, at: real)
    requires t.Legal()
    ensures var tick, before := t.MarkServiced(served).Poll(at), t.Poll(at);
            && tick.now == at && tick.elapsedSinceService == at - served
            && (tick.due <==> at >= served + t.period)
            && at == served + tick.elapsedSinceService
            && (if tick.due then at == served + t.period + tick.overdueBy else tick.overdueBy == 0.0)
            && tick.expiryEnabled == before.expiryEnabled && tick.expired == before.expired
            && tick.timeSinceRefresh == before.timeSinceRefresh
  {
  }

  /** A poll after a refresh measures the expiry from it, and the cadence as if there had been none. */
  lemma PollAfterRefresh(t: Timer, refreshed: real, at: real)
    requires t.Legal()
    ensures var tick, before := t.Refresh(refreshed).Poll(at), t.Poll(at);
            && tick.expiryEnabled == t.expiry.Some?
            && tick.timeSinceRefresh == (if t.expiry.Some? then Some(at - refreshed) else None)
            && (tick.expired <==> t.expiry.Some? && at > refreshed + t.expiry.value)
            && tick.now == before.now && tick.elapsedSinceService == before.elapsedSinceService
            && tick.due == before.due && tick.overdueBy == before.overdueBy && tick.missedSlots == before.missedSlots
  {
  }

  /**
   The answer of SecondsUntilDue is the least wait after which a poll reports due:
   due holds from that instant on and at no instant before it.
   */
  lemma SecondsUntilDueIsLeastWait(t: Timer, now: real, wait: real)
    requires wait >= 0.0
    ensures t.Due(now + wait) <==> wait >= t.SecondsUntilDue(now)
    ensures t.SecondsUntilDue(now) == 0.0 <==> t.Due(now)
  {
  }

  /** How many whole periods fit in a span of time. */
  function WholePeriods(span: real, period: real): int
    requires period > 0.0
  {
    (span / period).Floor
  }

  function Times(k: int, p: real): real {
    k as real * p
  }

  lemma ZeroTimes(p: real)
    ensures Times(0, p) == 0.0
  {
  }

  lemma OnceIsWhole(p: real)
    ensures Times(1, p) == p
  {
  }

  lemma TimesAdd(a: int, b: int, p: real)
    ensures Times(a + b, p) == Times(a, p) + Times(b, p)
  {
  }

  lemma TimesGrows(a: int, b: int, p: real)
    requires a <= b && p >= 0.0
    ensures Times(a, p) <= Times(b, p)
  {
    assert Times(b, p) - Times(a, p) == (b - a) as real * p;
  }

  lemma WholePeriodsAtLeast(span: real, period: real, k: int)
    requires period > 0.0
    ensures WholePeriods(span, period) >= k <==> span >= Times(k, period)
  {
    var q := span / period;
    assert q * period == span;
    if q.Floor >= k {
      assert q >= k as real;
      assert (q - k as real) * period >= 0.0;
    } else {
      assert q < k as real;
      assert (k as real - q) * period > 0.0;
    }
  }

  /** On a due poll, the slot being taken and the slots missed are the whole periods elapsed. */
  lemma MissedSlotsAreWholePeriods(t: Timer, now: real)
    requires t.Legal() && t.Due(now)
    ensures 1 + t.MissedSlots(now) == WholePeriods(now - t.lastService, t.period)
    ensures t.OverdueBy(now) == now - t.lastService - t.period
  {
    WholePeriodsAtLeast(now - t.lastService, t.period, 1);
  }

  // ----- Slot accounting over a whole run of polls -----

  /** A timer polled at a list of instants and acknowledged at each due one. */
  datatype Cadence = Cadence(timer: Timer, services: nat, missed: nat)

  function CadenceAfter(t: Timer, polls: seq<real>): (c: Cadence)
    requires t.Legal()
    ensures c.timer == t.MarkServiced(c.timer.lastService)
  {
    if polls == [] then Cadence(t, 0, 0)
    else
      var now := polls[|polls| - 1];
      var c := CadenceAfter(t, polls[..|polls| - 1]);
      if c.timer.Due(now) then
        Cadence(c.timer.MarkServiced(now), c.services + 1, c.missed + c.timer.MissedSlots(now))
      else c
  }

  lemma MissedSlotsBracketGap(t: Timer, now: real)
    requires t.Legal() && t.Due(now)
    ensures var m := t.MissedSlots(now);
            Times(1 + m, t.period) <= now - t.lastService < Times(2 + m, t.period)
  {
    MissedSlotsAreWholePeriods(t, now);
    var gap, m := now - t.lastService, t.MissedSlots(now);
    WholePeriodsAtLeast(gap, t.period, 1 + m);
    WholePeriodsAtLeast(gap, t.period, 2 + m);
  }

  lemma {:induction false} SlotAccountingBracket(t: Timer, polls: seq<real>)
    requires t.Legal()
    ensures var c := CadenceAfter(t, polls);
            var elapsed := c.timer.lastService - t.lastService;
            && Times(c.services + c.missed, t.period) <= elapsed
            && (c.services == 0 ==> elapsed == 0.0 && c.missed == 0)
            && (c.services > 0 ==> elapsed < Times(c.services + c.missed + c.services, t.period))
  {
    if polls != [] {
      var now := polls[|polls| - 1];
      SlotAccountingBracket(t, polls[..|polls| - 1]);
      var c := CadenceAfter(t, polls[..|polls| - 1]);
      if c.timer.Due(now) {
        MissedSlotsBracketGap(c.timer, now);
        var m := c.timer.MissedSlots(now);
        TimesAdd(c.services + c.missed, 1 + m, t.period);
        TimesAdd(c.services + c.missed + c.services, 2 + m, t.period);
      }
    }
  }

  /**
   Slots taken and slots missed never exceed the whole periods between the first
   anchor and the last service, and fall short of them by less than one per service:
   starvation costs slots but never creates a run of catch-up services.
   No assumption is made about the poll instants.
   */
  lemma SlotAccounting(t: Timer, polls: seq<real>)
    requires t.Legal()
    ensures var c := CadenceAfter(t, polls);
            var whole := WholePeriods(c.timer.lastService - t.lastService, t.period);
            && c.services + c.missed <= whole
            && (c.services == 0 ==> whole == 0)
            && (c.services > 0 ==> whole <= c.services + c.missed + c.services - 1)
  {
    hide WholePeriods, CadenceAfter;
    SlotAccountingBracket(t, polls);
    var c := CadenceAfter(t, polls);
    WholePeriodsAtLeast(c.timer.lastService - t.lastService, t.period, 1);
    WholePeriodsAtLeast(c.timer.lastService - t.lastService, t.period, c.services + c.missed);
    WholePeriodsAtLeast(c.timer.lastService - t.lastService, t.period, c.services + c.missed + c.services);
  }
}
