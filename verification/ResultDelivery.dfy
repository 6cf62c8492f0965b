/**
 From a check's results to their readers: what publishing them puts on the bus, and what a subscriber
 to the check's topics is called with.
 */
module ResultDelivery {
  import opened HealthTypes
  import opened Topics
  import opened MessageBuses
  import opened PeriodicChecks
  import opened SystemDelivery
  import opened ServiceRuns

  // ----- The topic of a result -----

  lemma ResultTopicSegments(r: CheckResult)
    ensures Split(r.Topic())
         == ["health"] + Split(r.check) + if r.subject == "" then [] else Split(r.subject)
  {
    hide Split;
    SplitWhole("health");
    SplitConcat("health", r.check);
    if r.subject != "" {
      SplitConcat("health" + "." + r.check, r.subject);
      assert r.Topic() == "health" + "." + r.check + "." + r.subject;
    } else {
      assert r.Topic() == "health" + "." + r.check;
    }
  }

  function CheckPattern(check: string): string {
    "health." + check + ".*"
  }

  /** A result of this check about one subject, told by a single segment. */
  predicate Heard(check: string, r: CheckResult) {
    r.check == check && r.subject != "" && '.' !in r.subject
  }

  /** A subscription to a check's topics accepts exactly that check's results about a dot-free subject. */
  lemma CheckPatternHears(check: string, r: CheckResult)
    requires '.' !in check && '.' !in r.check
    ensures Matches(CheckPattern(check), r.Topic()) <==> Heard(check, r)
  {
    hide Split, Matches, Join;
    MatchesIsSegmentwise(CheckPattern(check), r.Topic());
    ResultTopicSegments(r);
    assert CheckPattern(check) == "health" + "." + check + "." + "*";
    SplitConcat("health", check);
    SplitConcat("health" + "." + check, "*");
    SplitWhole("health");
    SplitWhole("*");
    SplitWhole(check);
    SplitWhole(r.check);
    var topic := Split(r.Topic());
    assert topic[1] == r.check;
    if '.' !in r.subject {
      SplitWhole(r.subject);
    } else {
      DotsMakeSegments(r.subject);
    }
  }

  lemma DotsMakeSegments(s: string)
    requires '.' in s
    ensures |Split(s)| >= 2
  {
    hide Split;
    var i := LastDot(s);
    assert s == s[..i] + "." + s[i + 1..];
    SplitAppendSegment(s[..i], s[i + 1..]);
    SomeSegment(s[..i]);
  }

  lemma SomeSegment(s: string)
    ensures |Split(s)| >= 1
  {
  }

  // ----- What publishing puts on the bus -----

  /** The message carries the result, under the check's name and the result's own topic and time. */
  ghost predicate Carries(m: Message, r: CheckResult, source: string) {
    && m.payload == HealthPayload(r) && m.source == source && m.at == r.at
    && Split(m.topic) == ["health"] + Split(r.check) + if r.subject == "" then [] else Split(r.subject)
  }

  ghost predicate CarryAll(ms: seq<Message>, rs: seq<CheckResult>, source: string) {
    |ms| == |rs| && forall i :: 0 <= i < |rs| ==> Carries(ms[i], rs[i], source)
  }

  function ResultMessages(rs: seq<CheckResult>, source: string): seq<Message> {
    seq(|rs|, i requires 0 <= i < |rs| => ResultMessage(rs[i], source))
  }

  lemma ResultMessagesCarry(rs: seq<CheckResult>, source: string)
    ensures CarryAll(ResultMessages(rs, source), rs, source)
  {
    hide Split;
    forall i | 0 <= i < |rs|
      ensures Carries(ResultMessages(rs, source)[i], rs[i], source)
    {
      ResultTopicSegments(rs[i]);
    }
  }

  lemma {:induction false} PublishedAllFills(b: Bus, rs: seq<CheckResult>, source: string)
    requires b.depth > 0 ==> |b.queue| <= b.depth
    ensures var c, n, ms := PublishedAll(b, rs, source), Taken(b, |rs|), ResultMessages(rs, source);
            && c.queue == b.queue + ms[..n] && c.accepted == b.accepted + ms[..n]
            && c.dropped == b.dropped + |rs| - n && c.published == b.published + n && c.offered == b.offered + |rs|
            && c.dispatched == b.dispatched && c.calls == b.calls && c.depth == b.depth
            && c.subscriptions == b.subscriptions && c.delivered == b.delivered
  {
    hide ResultMessage;
    if rs != [] {
      var front := rs[..|rs| - 1];
      PublishedAllFills(b, front, source);
      var ms, n := ResultMessages(rs, source), Taken(b, |rs|);
      assert ms == ResultMessages(front, source) + [ResultMessage(rs[|rs| - 1], source)];
      assert n < |rs| ==> ms[..n] == ResultMessages(front, source)[..n];
      assert n == |rs| ==> ms[..n] == ms;
    }
  }

  /**
   Publishing a call's results queues one message for each, in order, carrying it, up to the queue's
   depth; what finds the queue full is dropped and counted.
   */
  lemma ResultsArePublished(b: Bus, rs: seq<CheckResult>, source: string) returns (ms: seq<Message>)
    requires b.depth > 0 ==> |b.queue| <= b.depth
    ensures CarryAll(ms, rs, source)
    ensures var c, n := PublishedAll(b, rs, source), Taken(b, |rs|);
            && c.queue == b.queue + ms[..n] && c.accepted == b.accepted + ms[..n]
            && c.dropped == b.dropped + |rs| - n && c.published == b.published + n && c.offered == b.offered + |rs|
            && c.dispatched == b.dispatched && c.calls == b.calls && c.subscriptions == b.subscriptions
  {
    ms := ResultMessages(rs, source);
    ResultMessagesCarry(rs, source);
    PublishedAllFills(b, rs, source);
  }

  // ----- What a subscriber hears -----

  /** The results a subscriber to the check's topics hears, in order. */
  function HeardOf(check: string, rs: seq<CheckResult>): seq<CheckResult> {
    if rs == [] then []
    else HeardOf(check, rs[..|rs| - 1]) + if Heard(check, rs[|rs| - 1]) then [rs[|rs| - 1]] else []
  }

  lemma {:induction false} SelectedResults(check: string, rs: seq<CheckResult>, source: string)
    requires '.' !in check && forall r :: r in rs ==> '.' !in r.check
    ensures Selected(CheckPattern(check), ResultMessages(rs, source)) == ResultMessages(HeardOf(check, rs), source)
  {
    hide Matches, CheckPattern, Heard;
    if rs == [] {
      assert ResultMessages(rs, source) == [];
    } else {
      var front, last := rs[..|rs| - 1], rs[|rs| - 1];
      SelectedResults(check, front, source);
      var m := ResultMessage(last, source);
      assert ResultMessages(rs, source) == ResultMessages(front, source) + [m];
      SelectedConcat(CheckPattern(check), ResultMessages(front, source), [m]);
      CheckPatternHears(check, last);
      SelectedOne(CheckPattern(check), m);
    }
  }

  lemma SelectedOne(pattern: string, m: Message)
    ensures Selected(pattern, [m]) == if Matches(pattern, m.topic) then [m] else []
  {
    assert [m][1..] == [];
  }

  /**
   A subscriber to a check's topics: when a call's results are published to an idle bus with room and
   drained, it is called, in order, with one message for each result of that check about a dot-free
   subject, carrying it; and, if handlers only listen, with nothing else.
   */
  lemma CheckSubscriberHears(b: Bus, rs: seq<CheckResult>, source: string, limit: nat, handlers: Handlers,
                             check: string, k: nat) returns (heard: seq<Message>)
    requires Sound(b) && b.queue == [] && (b.depth > 0 ==> |rs| <= b.depth) && |rs| <= limit
    requires '.' !in check && forall r :: r in rs ==> '.' !in r.check
    requires k < |b.subscriptions| && b.subscriptions[k].pattern == CheckPattern(check)
    ensures CarryAll(heard, HeardOf(check, rs), source)
    ensures var c := Drained(PublishedAll(b, rs, source), limit, handlers);
            && ReceivedBy(b.calls, k) + heard <= ReceivedBy(c.calls, k)
            && (QuietHandlers(handlers) ==> ReceivedBy(c.calls, k) == ReceivedBy(b.calls, k) + heard)
  {
    hide ReceivedBy, Selected, Drained, CarryAll, CheckPattern, HeardOf, QuietHandlers, ResultMessage;
    var ms := ResultMessages(rs, source);
    PublishedAllFills(b, rs, source);
    assert ms[..|rs|] == ms && b.queue + ms == ms;
    var p := PublishedAll(b, rs, source);
    var c := Drained(p, limit, handlers);
    PublishedSound(b, rs, source);
    DrainServes(p, limit, handlers, k);
    DrainTakesAll(p, limit, handlers);
    SelectedResults(check, rs, source);
    heard := ResultMessages(HeardOf(check, rs), source);
    ResultMessagesCarry(HeardOf(check, rs), source);
    var more := c.dispatched[|b.dispatched| + |ms|..];
    assert c.dispatched[|b.dispatched|..] == ms + more;
    SelectedConcat(CheckPattern(check), ms, more);
    if QuietHandlers(handlers) {
      assert more == [];
      SelectedNone(CheckPattern(check));
    }
  }

  lemma SelectedNone(pattern: string)
    ensures Selected(pattern, []) == []
  {
  }

  lemma {:induction false} PublishedSound(b: Bus, rs: seq<CheckResult>, source: string)
    requires Sound(b)
    ensures Sound(PublishedAll(b, rs, source))
  {
    if rs != [] {
      PublishedSound(b, rs[..|rs| - 1], source);
      var c := PublishedAll(b, rs[..|rs| - 1], source);
      var m := ResultMessage(rs[|rs| - 1], source);
      assert c.dispatched + (c.queue + [m]) == (c.dispatched + c.queue) + [m];
    }
  }

  lemma DrainServes(b: Bus, limit: nat, handlers: Handlers, k: nat)
    requires k < |b.subscriptions|
    ensures Served(b, Drained(b, limit, handlers), k)
  {
    hide DrainLoop;
    DrainLoopServes(b, limit, handlers, k);
  }

  lemma DrainTakesAll(b: Bus, limit: nat, handlers: Handlers)
    requires Sound(b) && |b.queue| <= limit
    ensures b.dispatched + b.queue <= Drained(b, limit, handlers).dispatched
    ensures QuietHandlers(handlers) ==> Drained(b, limit, handlers).dispatched == b.dispatched + b.queue
  {
    hide DrainLoop, QuietHandlers;
    DrainLoopGrows(b, limit, handlers);
    if QuietHandlers(handlers) {
      QuietDrainAcceptsNothing(b, limit, handlers);
      QuietDrainEmpties(b, limit, handlers);
    }
  }

  lemma {:induction false} SubscribingAcceptsNothing(b: Bus, es: seq<Effect>)
    requires forall i :: 0 <= i < |es| ==> es[i].Subscribe?
    ensures DoEffects(b, es).accepted == b.accepted
  {
    if es != [] {
      SubscribingAcceptsNothing(b, es[..|es| - 1]);
    }
  }

  lemma {:induction false} ListeningAcceptsNothing(b: Bus, subscribers: seq<nat>, m: Message, handlers: Handlers)
    requires QuietHandlers(handlers)
    ensures InvokeAll(b, subscribers, m, handlers).accepted == b.accepted
  {
    if subscribers != [] {
      var front, last := subscribers[..|subscribers| - 1], subscribers[|subscribers| - 1];
      ListeningAcceptsNothing(b, front, m, handlers);
      var c := InvokeAll(b, front, m, handlers);
      SubscribingAcceptsNothing(c.(calls := c.calls + [HandlerCall(last, m)]), handlers(|c.calls|));
    }
  }

  lemma {:induction false} QuietDrainAcceptsNothing(b: Bus, limit: nat, handlers: Handlers)
    requires QuietHandlers(handlers)
    ensures DrainLoop(b, limit, handlers).accepted == b.accepted
    decreases limit
  {
    if limit > 0 && b.queue != [] {
      var taken := b.(queue := b.queue[1..], dispatched := b.dispatched + [b.queue[0]]);
      ListeningAcceptsNothing(taken, Matching(b.subscriptions, b.queue[0].topic), b.queue[0], handlers);
      QuietDrainAcceptsNothing(DispatchHead(b, handlers), limit - 1, handlers);
    }
  }
}
