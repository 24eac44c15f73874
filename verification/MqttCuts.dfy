/** Exactly which ways of cutting a stream of packets into TCP segments the client accepts
    (libraries/mqtt_patched.c, lines 654 to 933). */
module MqttCuts {
  import opened Bytes
  import opened MqttMessages
  import opened MqttDeadlines
  import opened MqttReceive
  import opened MqttSegments
  import opened MqttStreams

  /** Where a packet may be cut: at a clean place, or anywhere in a CONNACK that the client is
      not waiting for, as it does not look at its body. */
  predicate CleanFor(ss: Session, p: Packet, k: nat)
    requires WellFormed(p)
  {
    CleanIn(p, k) || (p.Connack? && !ss.conn.MqttConnecting?)
  }

  predicate CleanAtFor(ss: Session, ps: seq<Packet>, k: nat)
    requires AllWellFormed(ps)
    decreases |ps|
  {
    if ps == [] then true
    else if k < |Encode(ps[0])| then CleanFor(ss, ps[0], k)
    else CleanAtFor(SessionAfter(ss, ps[0]), ps[1..], k - |Encode(ps[0])|)
  }

  /** Every cut between segments, `base` bytes into the stream and further, is at such a
      place. */
  predicate CutsFit(ss: Session, ps: seq<Packet>, base: nat, segments: seq<seq<byte>>)
    requires AllWellFormed(ps)
    decreases |segments|
  {
    |segments| <= 1
    || (CleanAtFor(ss, ps, base + |segments[0]|) && CutsFit(ss, ps, base + |segments[0]|, segments[1..]))
  }

  /** The end of a stream is a clean place. */
  lemma {:induction false} EndClean(ss: Session, ps: seq<Packet>)
    requires AllWellFormed(ps)
    ensures CleanAtFor(ss, ps, |EncodeAll(ps)|)
    decreases |ps|
  {
    hide Encode, WellFormed, FitsBuffer, CleanIn, CleanFor;
    if ps != [] {
      EndClean(SessionAfter(ss, ps[0]), ps[1..]);
    }
  }

  /** The body of a CONNACK nobody waits for, or the second byte of it. */
  lemma IgnoredRound(h: seq<byte>, got: nat, ss: Session, s: seq<byte>)
    requires Whole(h) && BodyLen(h) == 2 && PacketType(h[0]) == CONNACK && !ss.conn.MqttConnecting?
    requires got < 2 && |s| >= 2 - got
    ensures Feed(Body(h, got), ss, s) == Feed(Header([]), ss, s[2 - got..])
  {
    hide BodyLen, PacketType;
    var r := NextRound(Body(h, got), ss, s);
    assert r == Round(2 - got, Header([]), ss, [], Accepted);
    AfterAfter([], [], Feed(Header([]), ss, s[2 - got..]));
  }

  lemma IgnoredStart(p: Packet, ss: Session, k: nat)
    requires WellFormed(p) && k < |Encode(p)| && !CleanIn(p, k) && p.Connack? && !ss.conn.MqttConnecting?
    ensures var h := HeaderOf(p);
      && Whole(h) && BodyLen(h) == 2 && PacketType(h[0]) == CONNACK
      && Feed(Header([]), ss, h) == Outcome(Body(h, 0), ss, [], Accepted)
      && Feed(Header([]), ss, Encode(p)[..k]) == Outcome(Body(h, 1), ss, [], Accepted)
  {
    hide Feed, HeaderOf, BodyLen, PacketType, Encode;
    HeaderFacts(p);
    var h, x := HeaderOf(p), [Head(p)[0]];
    IgnoredPlace(p, k);
    FeedHeader(h, ss);
    CutAtRest(Header([]), ss, h, x);
    AfterAfter([], [], Feed(Body(h, 0), ss, x));
    SmallBody(h, ss, x);
  }

  lemma IgnoredPart(p: Packet, ss: Session, k: nat, b: seq<byte>)
    requires WellFormed(p) && k < |Encode(p)| && !CleanIn(p, k) && p.Connack? && !ss.conn.MqttConnecting?
    ensures var o := Feed(Header([]), ss, Encode(p)[..k]);
      o.status.Accepted? && Feed(Header([]), ss, Encode(p)[..k] + b) == After(o.events, Feed(o.phase, o.session, b))
  {
    hide Feed, HeaderOf, BodyLen, PacketType, Encode, WellFormed, CleanIn;
    IgnoredStart(p, ss, k);
    IgnoredPlace(p, k);
    var h, x := HeaderOf(p), [Head(p)[0]];
    AfterAfter([], [], Feed(Body(h, 1), ss, b));
    if b == [] {
      assert Encode(p)[..k] + b == Encode(p)[..k];
      FeedNothing(Body(h, 1), ss);
    } else {
      assert Encode(p)[..k] + b == h + (x + b);
      CutAtRest(Header([]), ss, h, x + b);
      AfterAfter([], [], Feed(Body(h, 0), ss, x + b));
      IgnoredRound(h, 0, ss, x + b);
      IgnoredRound(h, 1, ss, b);
      assert (x + b)[2..] == b[1..];
    }
  }

  lemma IgnoredPlace(p: Packet, k: nat)
    requires WellFormed(p) && k < |Encode(p)| && !CleanIn(p, k) && p.Connack?
    ensures k == |HeaderOf(p)| + 1 && |Head(p)| == 2 && Tail(p) == [] && Encode(p)[..k] == HeaderOf(p) + [Head(p)[0]]
  {
    hide HeaderOf;
  }

  /** A cut that is only clean because the packet is ignored can be undone as well. */
  lemma {:induction false} IgnoredPrefix(ps: seq<Packet>, ss: Session, k: nat, b: seq<byte>)
    requires AllWellFormed(ps) && k <= |EncodeAll(ps)| && CleanAtFor(ss, ps, k) && !CleanAt(ps, k)
    ensures var a := EncodeAll(ps)[..k];
      var o := Feed(Header([]), ss, a);
      o.status.Accepted? && Feed(Header([]), ss, a + b) == After(o.events, Feed(o.phase, o.session, b))
    decreases |ps|
  {
    hide Feed, Items, Encode, Reports, SessionAfter, FitsBuffer, WellFormed, CleanIn;
    var first, rest := Encode(ps[0]), EncodeAll(ps[1..]);
    assert EncodeAll(ps) == first + rest;
    if k < |first| {
      assert EncodeAll(ps)[..k] == first[..k];
      IgnoredPart(ps[0], ss, k, b);
    } else {
      var x := rest[..k - |first|];
      assert EncodeAll(ps)[..k] == first + x && (first + x) + b == first + (x + b);
      PacketFed(ps[0], ss);
      var s := SessionAfter(ss, ps[0]);
      IgnoredPrefix(ps[1..], s, k - |first|, b);
      CutAtRest(Header([]), ss, first, x);
      CutAtRest(Header([]), ss, first, x + b);
      var o, o2 := Feed(Header([]), ss, first), Feed(Header([]), s, x);
      AfterAfter(o.events, o2.events, Feed(o2.phase, o2.session, b));
    }
  }

  /** Segments that may as well be one. */
  lemma MergeExact(p: Phase, ss: Session, a: seq<byte>, b: seq<byte>, rest: seq<seq<byte>>)
    requires ValidPhase(p) && Feed(p, ss, a).status.Accepted?
    requires var o := Feed(p, ss, a); Feed(p, ss, a + b) == After(o.events, Feed(o.phase, o.session, b))
    ensures FeedAll(p, ss, [a, b] + rest) == FeedAll(p, ss, [a + b] + rest)
  {
    hide Feed;
    var o := Feed(p, ss, a);
    var o2 := Feed(o.phase, o.session, b);
    assert ([a, b] + rest)[1..] == [b] + rest && ([b] + rest)[1..] == rest && ([a + b] + rest)[1..] == rest;
    if o2.status.Accepted? {
      AfterAfter(o.events, o2.events, FeedAll(o2.phase, o2.session, rest));
    }
  }

  lemma CutsJoined(ss: Session, ps: seq<Packet>, segments: seq<seq<byte>>)
    requires AllWellFormed(ps) && |segments| >= 2
    ensures var merged := [segments[0] + segments[1]] + segments[2..];
      CutsFit(ss, ps, 0, segments) <==> CleanAtFor(ss, ps, |segments[0]|) && CutsFit(ss, ps, 0, merged)
  {
    hide CleanAtFor, AllWellFormed;
    var merged := [segments[0] + segments[1]] + segments[2..];
    assert merged[1..] == segments[2..] && segments[1..][1..] == segments[2..];
  }

  /** The first cut is undone, if it is at a place that fits. */
  lemma FirstMerged(ps: seq<Packet>, ss: Session, segments: seq<seq<byte>>)
    requires AllWellFormed(ps) && |segments| >= 2 && Join(segments) == EncodeAll(ps)
    requires CleanAtFor(ss, ps, |segments[0]|)
    ensures var merged := [segments[0] + segments[1]] + segments[2..];
      Join(merged) == EncodeAll(ps) && Equivalent(FeedAll(Header([]), ss, segments), FeedAll(Header([]), ss, merged))
  {
    hide Feed, FeedAll, Items, CleanAt, CleanAtFor, AllWellFormed, EncodeAll;
    var a, b, rest := segments[0], segments[1], segments[2..];
    JoinMerged(segments);
    assert segments == [a, b] + rest;
    FirstPart(segments);
    if CleanAt(ps, |a|) {
      PrefixFed(ps, ss, |a|);
      MergeFirst(Header([]), ss, a, b, rest);
    } else {
      IgnoredPrefix(ps, ss, |a|, b);
      MergeExact(Header([]), ss, a, b, rest);
    }
  }

  /** Inside a SUBACK: its last byte is still to come, without the identifier it is to go
      with. */
  ghost predicate Stuck(p: Phase) {
    p.Body? && Whole(p.h) && PacketType(p.h[0]) == SUBACK && BodyLen(p.h) == 3 && p.got == 2
  }

  lemma {:induction false} StuckRefused(p: Phase, ss: Session, segments: seq<seq<byte>>)
    requires Stuck(p) && Join(segments) != []
    ensures !FeedAll(p, ss, segments).status.Accepted?
    decreases |segments|
  {
    hide BodyLen, PacketType;
    if segments[0] == [] {
      FeedNothing(p, ss);
      StuckRefused(p, ss, segments[1..]);
    } else {
      assert !NextRound(p, ss, segments[0]).status.Accepted?;
    }
  }

  /** What the handler makes of a first part of a body that ends too early. */
  lemma ShortBody(p: Packet, ss: Session, k: nat, hdrLen: nat, control: byte, rest: nat)
    requires WellFormed(p) && !p.Publish? && !p.Pingresp? && hdrLen <= BUFFER_LEN
    requires PacketType(control) == (if p.Connack? then CONNACK else if p.Suback? then SUBACK else p.msgType)
    requires k < |Head(p)| && (p.Connack? ==> ss.conn.MqttConnecting?) && (p.Suback? ==> k < 2)
    ensures Handle(ss, control, hdrLen, true, Head(p)[..k], rest).status == Disconnected
  {
  }

  /** A SUBACK without its last byte is taken if nothing waits for it. */
  lemma SubackBody(p: Packet, ss: Session, hdrLen: nat, control: byte, rest: nat)
    requires WellFormed(p) && p.Suback? && hdrLen <= BUFFER_LEN && PacketType(control) == SUBACK
    ensures |Head(p)| == 3
    ensures Handle(ss, control, hdrLen, true, Head(p)[..2], rest).status in {Accepted, Disconnected}
  {
  }

  /** A part of a packet that is cut at any other place ends the connection, at once or with
      its next byte. */
  lemma PartRefused(p: Packet, ss: Session, k: nat)
    requires WellFormed(p) && FitsBuffer(p) && k < |Encode(p)| && !CleanFor(ss, p, k)
    ensures var o := Feed(Header([]), ss, Encode(p)[..k]); !o.status.Accepted? || Stuck(o.phase)
  {
    hide Feed, Items, HeaderOf, Head, Tail, BodyLen, PacketType, Handle;
    HeaderFacts(p);
    var h := HeaderOf(p);
    var x := HeadPart(p, k);
    FeedHeader(h, ss);
    CutAtRest(Header([]), ss, h, x);
    AfterAfter([], [], Feed(Body(h, 0), ss, x));
    if p.Publish? {
      PublishPart(p, ss, x);
    } else {
      if p.Pingresp? {
        PingBody();
      }
      BodyNotEmpty(p);
      SmallBody(h, ss, x);
      if p.Suback? && |x| >= 2 {
        SubackBody(p, ss, |h|, h[0], BodyLen(h) - |x|);
      } else {
        ShortBody(p, ss, |x|, |h|, h[0], BodyLen(h) - |x|);
      }
    }
  }

  /** A part that is no clean one ends inside the head of the packet's body. */
  lemma HeadPart(p: Packet, k: nat) returns (x: seq<byte>)
    requires WellFormed(p) && k < |Encode(p)| && !CleanIn(p, k)
    ensures k > |HeaderOf(p)| && Encode(p)[..k] == HeaderOf(p) + x && |x| == k - |HeaderOf(p)|
    ensures |x| < |Head(p)| && x == Head(p)[..|x|]
  {
    hide HeaderOf, Head, Tail;
    x := (Head(p) + Tail(p))[..k - |HeaderOf(p)|];
  }

  lemma {:induction false} PrefixRefused(ps: seq<Packet>, ss: Session, k: nat)
    requires AllWellFormed(ps) && k <= |EncodeAll(ps)| && !CleanAtFor(ss, ps, k)
    ensures var o := Feed(Header([]), ss, EncodeAll(ps)[..k]); !o.status.Accepted? || Stuck(o.phase)
    decreases |ps|
  {
    hide Feed, Items, Encode, Reports, SessionAfter, FitsBuffer, WellFormed, CleanFor, Stuck;
    var first, rest := Encode(ps[0]), EncodeAll(ps[1..]);
    assert EncodeAll(ps) == first + rest;
    if k < |first| {
      assert EncodeAll(ps)[..k] == first[..k];
      PartRefused(ps[0], ss, k);
    } else {
      assert EncodeAll(ps)[..k] == first + rest[..k - |first|];
      PacketFed(ps[0], ss);
      PrefixRefused(ps[1..], SessionAfter(ss, ps[0]), k - |first|);
      CutAtRest(Header([]), ss, first, rest[..k - |first|]);
    }
  }

  lemma FirstRefused(ps: seq<Packet>, ss: Session, segments: seq<seq<byte>>)
    requires AllWellFormed(ps) && segments != [] && Join(segments) == EncodeAll(ps)
    requires !CleanAtFor(ss, ps, |segments[0]|)
    ensures !FeedAll(Header([]), ss, segments).status.Accepted?
  {
    hide Feed, FeedAll, CleanAtFor, AllWellFormed, EncodeAll, Stuck;
    FirstPart(segments);
    PrefixRefused(ps, ss, |segments[0]|);
    EndClean(ss, ps);
    var o := Feed(Header([]), ss, segments[0]);
    FeedFirst(Header([]), ss, segments);
    if o.status.Accepted? {
      StuckRefused(o.phase, o.session, segments[1..]);
    }
  }

  lemma FeedFirst(p: Phase, ss: Session, segments: seq<seq<byte>>)
    requires ValidPhase(p) && segments != []
    ensures var o := Feed(p, ss, segments[0]);
      FeedAll(p, ss, segments)
      == if o.status.Accepted? then After(o.events, FeedAll(o.phase, o.session, segments[1..])) else o
    ensures Join(segments) == segments[0] + Join(segments[1..])
  {
    hide Feed;
  }

  /** A stream of well-formed packets that fit the buffer is accepted, cut into segments in any
      way, exactly if all the cuts fit; and then it is received as if it had come in one
      piece. */
  lemma {:induction false} SegmentationIff(ps: seq<Packet>, ss: Session, segments: seq<seq<byte>>)
    requires AllWellFormed(ps) && segments != [] && Join(segments) == EncodeAll(ps)
    ensures var o := FeedAll(Header([]), ss, segments);
      && (o.status.Accepted? <==> CutsFit(ss, ps, 0, segments))
      && (o.status.Accepted? ==>
            o.phase == Header([]) && o.session == SessionAfterAll(ss, ps) && Items(o.events) == AllReports(ss, ps))
    decreases |segments|
  {
    hide Feed, FeedAll, Items, CutsFit, CleanAtFor, AllWellFormed, EncodeAll;
    if |segments| == 1 {
      OneCut(ss, ps, segments);
      AnySegmentation(ps, ss, segments);
    } else {
      CutsJoined(ss, ps, segments);
      if CleanAtFor(ss, ps, |segments[0]|) {
        FirstMerged(ps, ss, segments);
        SegmentationIff(ps, ss, [segments[0] + segments[1]] + segments[2..]);
      } else {
        FirstRefused(ps, ss, segments);
      }
    }
  }

  lemma OneCut(ss: Session, ps: seq<Packet>, segments: seq<seq<byte>>)
    requires AllWellFormed(ps) && |segments| == 1
    ensures CutsFit(ss, ps, 0, segments) && CutsClean(ps, 0, segments)
  {
  }
}
