/**
 Topic patterns: the prefix test the bus performs, proved against the segmentwise
 meaning of a single trailing wildcard (src/health_monitor/bus.py, _matches), and
 the peer-name decoding done by the heartbeat subscriber.
 */
module Topics {

  /** The bus's own test, written with prefixes and suffixes of strings. */
  predicate Matches(pattern: string, topic: string) {
    if pattern == topic then true
    else if !EndsWith(pattern, ".*") then false
    else
      var prefix := pattern[..|pattern| - 1];
      prefix <= topic && '.' !in topic[|prefix|..]
  }

  predicate EndsWith(s: string, suffix: string) {
    |suffix| <= |s| && s[|s| - |suffix|..] == suffix
  }

  /** Splitting on dots; there is always at least one segment, and no segment holds a dot. */
  function Split(s: string): (segments: seq<string>)
    ensures |segments| >= 1
    ensures forall i :: 0 <= i < |segments| ==> '.' !in segments[i]
    ensures |segments| == 1 <==> '.' !in s
  {
    if s == "" then [""]
    else
      var c := s[|s| - 1];
      var front := Split(s[..|s| - 1]);
      assert s == s[..|s| - 1] + [c];
      if c == '.' then front + [""]
      else front[..|front| - 1] + [front[|front| - 1] + [c]]
  }

  function Join(segments: seq<string>): string
    requires |segments| >= 1
  {
    if |segments| == 1 then segments[0]
    else Join(segments[..|segments| - 1]) + "." + segments[|segments| - 1]
  }

  lemma JoinOneMore(front: seq<string>, last: string)
    requires |front| >= 1
    ensures Join(front + [last]) == Join(front) + "." + last
  {
    assert (front + [last])[..|front|] == front;
  }

  lemma JoinLonger(segments: seq<string>, c: char)
    requires |segments| >= 1
    ensures Join(segments[..|segments| - 1] + [segments[|segments| - 1] + [c]]) == Join(segments) + [c]
  {
    hide *;
    var front, last := segments[..|segments| - 1], segments[|segments| - 1];
    FrontAndLast(segments);
    JoinLongerLast(front, last, c);
  }

  lemma FrontAndLast(segments: seq<string>)
    requires |segments| >= 1
    ensures segments == segments[..|segments| - 1] + [segments[|segments| - 1]]
  {
  }

  lemma JoinLongerLast(front: seq<string>, last: string, c: char)
    ensures Join(front + [last + [c]]) == Join(front + [last]) + [c]
  {
    hide *;
    if front == [] {
      assert front + [last] == [last] && front + [last + [c]] == [last + [c]];
      JoinOne(last);
      JoinOne(last + [c]);
    } else {
      JoinOneMore(front, last + [c]);
      JoinOneMore(front, last);
      Associates(Join(front) + ".", last, [c]);
    }
  }

  lemma Associates(a: string, b: string, c: string)
    ensures a + (b + c) == (a + b) + c
  {
  }

  lemma JoinOne(last: string)
    ensures Join([last]) == last
  {
  }

  lemma {:induction false} JoinSplit(s: string)
    ensures Join(Split(s)) == s
  {
    hide Join;
    if s == "" {
      JoinOne("");
    } else {
      var init, c := s[..|s| - 1], s[|s| - 1];
      JoinSplit(init);
      assert s == init + [c];
      if c == '.' {
        JoinOneMore(Split(init), "");
      } else {
        JoinLonger(Split(init), c);
      }
    }
  }

  lemma {:induction false} SplitAppendSegment(a: string, last: string)
    requires '.' !in last
    ensures Split(a + "." + last) == Split(a) + [last]
  {
    var s := a + "." + last;
    if last == "" {
      assert s[..|s| - 1] == a;
    } else {
      var shorter := last[..|last| - 1];
      assert s[..|s| - 1] == a + "." + shorter && s[|s| - 1] == last[|last| - 1];
      SplitAppendSegment(a, shorter);
      assert Split(s) == Split(a) + [shorter + [last[|last| - 1]]];
      assert shorter + [last[|last| - 1]] == last;
    }
  }

  /** Joining two topics with a dot joins their segments. */
  lemma {:induction false} SplitConcat(a: string, b: string)
    ensures Split(a + "." + b) == Split(a) + Split(b)
    decreases |b|
  {
    hide Split;
    if '.' !in b {
      SplitAppendSegment(a, b);
      SplitWhole(b);
    } else {
      var i := LastDot(b);
      var stem, last := b[..i], b[i + 1..];
      assert b == stem + "." + last;
      SplitConcat(a, stem);
      SplitAppendSegment(stem, last);
      SplitAppendSegment(a + "." + stem, last);
      assert a + "." + b == a + "." + stem + "." + last;
    }
  }

  lemma {:induction false} LastDot(s: string) returns (i: nat)
    requires '.' in s
    ensures i < |s| && s[i] == '.' && '.' !in s[i + 1..]
  {
    i := |s| - 1;
    if s[i] != '.' {
      assert s == s[..i] + [s[i]];
      i := LastDot(s[..i]);
      assert s[i + 1..] == s[..|s| - 1][i + 1..] + [s[|s| - 1]];
    }
  }

  lemma {:induction false} SplitJoin(segments: seq<string>)
    requires |segments| >= 1 && forall i :: 0 <= i < |segments| ==> '.' !in segments[i]
    ensures Split(Join(segments)) == segments
  {
    hide Split, Join;
    if |segments| == 1 {
      JoinOne(segments[0]);
      assert segments == [segments[0]];
      SplitWhole(segments[0]);
    } else {
      var front, last := segments[..|segments| - 1], segments[|segments| - 1];
      SplitJoin(front);
      SplitAppendSegment(Join(front), last);
      JoinOneMore(front, last);
      assert segments == front + [last];
    }
  }

  lemma {:induction false} SplitWhole(s: string)
    requires '.' !in s
    ensures Split(s) == [s]
  {
    JoinSplit(s);
    JoinOne(Split(s)[0]);
    assert Split(s) == [Split(s)[0]];
  }

  /** A pattern's meaning: equal segment by segment, a final `*` standing for any one segment. */
  ghost predicate SegmentsMatch(pattern: seq<string>, topic: seq<string>) {
    || pattern == topic
    || (&& |pattern| >= 2 && pattern[|pattern| - 1] == "*"
        && |topic| == |pattern|
        && topic[..|topic| - 1] == pattern[..|pattern| - 1])
  }

  lemma WildcardPatternSegments(pattern: string)
    ensures EndsWith(pattern, ".*") <==>
            |Split(pattern)| >= 2 && Split(pattern)[|Split(pattern)| - 1] == "*"
    ensures EndsWith(pattern, ".*") ==>
              Split(pattern) == Split(pattern[..|pattern| - 2]) + ["*"]
  {
    var segments := Split(pattern);
    if EndsWith(pattern, ".*") {
      var stem := pattern[..|pattern| - 2];
      assert pattern == stem + "." + "*";
      SplitAppendSegment(stem, "*");
    }
    if |segments| >= 2 && segments[|segments| - 1] == "*" {
      JoinSplit(pattern);
      StarAtEnd(segments);
    }
  }

  lemma StarAtEnd(segments: seq<string>)
    requires |segments| >= 2 && segments[|segments| - 1] == "*"
    ensures EndsWith(Join(segments), ".*")
  {
    hide Join;
    var front := segments[..|segments| - 1];
    assert segments == front + ["*"];
    JoinOneMore(front, "*");
  }

  lemma MatchesByPrefix(stem: string, topic: string)
    requires stem + "." <= topic && '.' !in topic[|stem| + 1..]
    ensures Split(topic) == Split(stem) + [topic[|stem| + 1..]]
  {
    assert topic == stem + "." + topic[|stem| + 1..];
    SplitAppendSegment(stem, topic[|stem| + 1..]);
  }

  /** The prefix test decides exactly the segmentwise meaning, for every pattern and topic. */
  lemma MatchesIsSegmentwise(pattern: string, topic: string)
    ensures Matches(pattern, topic) <==> SegmentsMatch(Split(pattern), Split(topic))
  {
    JoinSplit(pattern);
    JoinSplit(topic);
    WildcardPatternSegments(pattern);
    var ts := Split(topic);
    if pattern != topic && EndsWith(pattern, ".*") {
      var stem := pattern[..|pattern| - 2];
      assert pattern[..|pattern| - 1] == stem + ".";
      if Matches(pattern, topic) {
        MatchesByPrefix(stem, topic);
      }
      if SegmentsMatch(Split(pattern), ts) {
        JoinSplit(stem);
        assert ts[..|ts| - 1] == Split(stem);
        var last := ts[|ts| - 1];
        assert topic == stem + "." + last;
        assert topic[|stem| + 1..] == last;
      }
    }
  }

  // ----- Peer heartbeat topics -----

  const PEER_TOPIC_PREFIX := "peer.heartbeat"

  /** The part after the last dot, the whole string when there is none: `rsplit(".", 1)[-1]`. */
  function LastSegment(topic: string): string {
    if topic == "" || topic[|topic| - 1] == '.' then ""
    else LastSegment(topic[..|topic| - 1]) + [topic[|topic| - 1]]
  }

  lemma {:induction false} LastSegmentIsLast(topic: string)
    ensures LastSegment(topic) == Split(topic)[|Split(topic)| - 1]
  {
    if topic != "" {
      LastSegmentIsLast(topic[..|topic| - 1]);
    }
  }

  function PeerTopic(peer: string): string {
    PEER_TOPIC_PREFIX + "." + peer
  }

  function PeerPattern(): string {
    PEER_TOPIC_PREFIX + ".*"
  }

  /** A peer's beacon topic in segments, and the pattern the heartbeat check listens to. */
  lemma PeerTopicSegments(peer: string)
    ensures Split(PeerTopic(peer)) == ["peer", "heartbeat"] + Split(peer)
    ensures Split(PeerPattern()) == ["peer", "heartbeat", "*"]
  {
    hide Split;
    SplitConcat(PEER_TOPIC_PREFIX, peer);
    SplitConcat(PEER_TOPIC_PREFIX, "*");
    assert PEER_TOPIC_PREFIX == "peer" + "." + "heartbeat" && PeerPattern() == PEER_TOPIC_PREFIX + "." + "*";
    SplitConcat("peer", "heartbeat");
    SplitWhole("peer");
    SplitWhole("heartbeat");
    SplitWhole("*");
  }

  lemma WildcardDecodesOneSegment(stem: string, name: string)
    ensures Matches(stem + ".*", stem + "." + name) <==> '.' !in name
    ensures LastSegment(stem + "." + name) == name <==> '.' !in name
  {
    var pattern, topic := stem + ".*", stem + "." + name;
    assert pattern[..|pattern| - 1] == stem + "." && pattern[|pattern| - 2..] == ".*";
    assert topic[|stem| + 1..] == name;
    LastSegmentIsLast(topic);
    if '.' !in name {
      SplitAppendSegment(stem, name);
    }
    if pattern == topic {
      assert pattern[|stem| + 1..] == "*";
    }
  }

  lemma {:induction false} WildcardAcceptsOnlyDecodable(stem: string, topic: string)
    requires Matches(stem + ".*", topic)
    ensures topic == stem + "." + LastSegment(topic) && '.' !in LastSegment(topic)
  {
    var pattern := stem + ".*";
    assert pattern[..|pattern| - 1] == stem + ".";
    assert pattern == stem + "." + "*";
    assert pattern[|stem| + 1..] == "*";
    LastSegmentIsLast(topic);
    MatchesByPrefix(stem, topic);
  }

  /**
   A beacon published for a peer reaches the heartbeat subscription, and is decoded
   to that peer's name, exactly when the name holds no dot. For a name with a dot the
   subscription never sees the beacon, so such a peer can never be refreshed.
   */
  lemma PeerTopicReachesPeer(peer: string)
    ensures Matches(PeerPattern(), PeerTopic(peer)) <==> '.' !in peer
    ensures LastSegment(PeerTopic(peer)) == peer <==> '.' !in peer
  {
    WildcardDecodesOneSegment(PEER_TOPIC_PREFIX, peer);
  }

  /** Whatever topic the subscription accepts is the beacon topic of the name decoded from it. */
  lemma AcceptedTopicNamesPeer(topic: string)
    requires Matches(PeerPattern(), topic)
    ensures topic == PeerTopic(LastSegment(topic)) && '.' !in LastSegment(topic)
  {
    WildcardAcceptsOnlyDecodable(PEER_TOPIC_PREFIX, topic);
  }
}
