/** Received packets do not depend on how TCP cuts the stream, as long as no cut falls where
    the client cannot take one: inside the variable header of a PUBLISH or the body of any
    other packet. */
module MqttSegments {
  import opened Bytes
  import opened MqttMessages
  import opened MqttReceive

  /** Events with payloads taken apart, since where a payload is cut is up to TCP. */
  datatype Item = Payload(b: byte) | EndOfPayload | Other(e: Event)

  function PayloadItems(bs: seq<byte>): (r: seq<Item>)
    ensures |r| == |bs|
  {
    seq(|bs|, i requires 0 <= i < |bs| => Payload(bs[i]))
  }

  function ItemsOf(e: Event): seq<Item> {
    if e.Data? then PayloadItems(e.payload) + (if e.last then [EndOfPayload] else []) else [Other(e)]
  }

  function Items(es: seq<Event>): seq<Item> {
    if es == [] then [] else ItemsOf(es[0]) + Items(es[1..])
  }

  lemma {:induction false} ItemsConcat(a: seq<Event>, b: seq<Event>)
    ensures Items(a + b) == Items(a) + Items(b)
    decreases |a|
  {
    if a == [] {
      assert a + b == b;
    } else {
      assert (a + b)[1..] == a[1..] + b;
      ItemsConcat(a[1..], b);
      Assoc(ItemsOf(a[0]), Items(a[1..]), Items(b));
    }
  }

  lemma PayloadItemsConcat(a: seq<byte>, b: seq<byte>)
    ensures PayloadItems(a + b) == PayloadItems(a) + PayloadItems(b)
  {
  }

  /** End of a payload and the acknowledgement it calls for. */
  function EndItems(qos: nat, pktId: u16): seq<Item> {
    [EndOfPayload] + if qos > 0 then [Other(Respond(if qos == 1 then PUBACK else PUBREC, pktId, 0))] else []
  }

  lemma PayloadEventsItems(qos: nat, pktId: u16, payload: seq<byte>, rest: nat)
    ensures Items(PayloadEvents(qos, pktId, payload, rest))
         == PayloadItems(payload) + if rest == 0 then EndItems(qos, pktId) else []
  {
    var es := PayloadEvents(qos, pktId, payload, rest);
    if payload == [] && rest > 0 {
    } else if rest == 0 && qos > 0 {
      var ack := Respond(if qos == 1 then PUBACK else PUBREC, pktId, 0);
      assert es[1..] == [ack] && [ack][1..] == [];
      assert Items([ack]) == [Other(ack)];
      Assoc(PayloadItems(payload), [EndOfPayload], [Other(ack)]);
    } else {
      assert es[1..] == [];
    }
  }

  ghost predicate InPublish(p: Phase) {
    p.Body? && Whole(p.h) && PacketType(p.h[0]) == PUBLISH
  }

  lemma AfterItems(events: seq<Event>, o: Outcome)
    ensures Items(After(events, o).events) == Items(events) + Items(o.events)
  {
    ItemsConcat(events, o.events);
  }

  /** One frame of a PUBLISH that is not its first. */
  lemma FeedPublish(h: seq<byte>, got: nat, ss: Session, s: seq<byte>)
    requires ValidPhase(Body(h, got)) && InPublish(Body(h, got)) && got > 0 && s != []
    ensures var rest := BodyLen(h) - got;
      var n := FrameLen(|s|, rest, |h|);
      0 < n && Feed(Body(h, got), ss, s)
        == After(PayloadEvents(PacketQos(h[0]), ss.inpubPktId, s[..n], rest - n),
                 Feed(if n == rest then Header([]) else Body(h, got + n), ss, s[n..]))
  {
  }

  /** Where a stretch of body bytes leaves the parser. */
  function PhaseAfter(h: seq<byte>, got: nat): Phase
    requires Whole(h) && got <= BodyLen(h)
  {
    if got == BodyLen(h) then Header([]) else Body(h, got)
  }

  /** What a stretch of payload yields, whatever the frames: its bytes in order and, if it
      completes the packet, one end mark and the acknowledgement. */
  function StretchItems(h: seq<byte>, got: nat, pktId: u16, x: seq<byte>): seq<Item>
    requires Whole(h)
  {
    PayloadItems(x) + if got + |x| == BodyLen(h) then EndItems(PacketQos(h[0]), pktId) else []
  }

  ghost predicate Stretched(o: Outcome, h: seq<byte>, got: nat, ss: Session, x: seq<byte>)
    requires Whole(h) && got + |x| <= BodyLen(h)
  {
    && o.phase == PhaseAfter(h, got + |x|) && o.session == ss && o.status == Accepted
    && Items(o.events) == StretchItems(h, got, ss.inpubPktId, x)
  }

  lemma {:induction false} Stretch(h: seq<byte>, got: nat, ss: Session, x: seq<byte>)
    requires ValidPhase(Body(h, got)) && InPublish(Body(h, got)) && got > 0 && got + |x| <= BodyLen(h)
    ensures Stretched(Feed(Body(h, got), ss, x), h, got, ss, x)
    decreases |x|
  {
    hide Feed, NextRound, PayloadEvents, Items, PayloadItems, StretchItems, BodyLen;
    if x == [] {
      StretchNone(h, got, ss);
    } else {
      var rest := BodyLen(h) - got;
      var n := FrameLen(|x|, rest, |h|);
      var events := PayloadEvents(PacketQos(h[0]), ss.inpubPktId, x[..n], rest - n);
      FeedPublish(h, got, ss, x);
      PayloadEventsItems(PacketQos(h[0]), ss.inpubPktId, x[..n], rest - n);
      if n == |x| {
        assert x[..n] == x && x[n..] == [];
        FeedNothing(PhaseAfter(h, got + |x|), ss);
        StretchLast(h, got, ss, x, events);
      } else {
        var more := Feed(Body(h, got + n), ss, x[n..]);
        Stretch(h, got + n, ss, x[n..]);
        StretchMore(h, got, ss, x, n, events, more);
      }
    }
  }

  lemma StretchNone(h: seq<byte>, got: nat, ss: Session)
    requires ValidPhase(Body(h, got))
    ensures Stretched(Feed(Body(h, got), ss, []), h, got, ss, [])
  {
  }

  lemma StretchLast(h: seq<byte>, got: nat, ss: Session, x: seq<byte>, events: seq<Event>)
    requires ValidPhase(Body(h, got)) && got + |x| <= BodyLen(h)
    requires Items(events) == PayloadItems(x) + if got + |x| == BodyLen(h) then EndItems(PacketQos(h[0]), ss.inpubPktId) else []
    ensures Stretched(After(events, Outcome(PhaseAfter(h, got + |x|), ss, [], Accepted)), h, got, ss, x)
  {
    assert events + [] == events;
  }

  lemma StretchMore(h: seq<byte>, got: nat, ss: Session, x: seq<byte>, n: nat, events: seq<Event>, more: Outcome)
    requires ValidPhase(Body(h, got)) && got + |x| <= BodyLen(h) && 0 < n < |x|
    requires Items(events) == PayloadItems(x[..n])
    requires Stretched(more, h, got + n, ss, x[n..])
    ensures Stretched(After(events, more), h, got, ss, x)
  {
    AfterItems(events, more);
    StretchJoin(h, got, ss, n, x);
  }

  lemma StretchJoin(h: seq<byte>, got: nat, ss: Session, n: nat, x: seq<byte>)
    requires Whole(h) && 0 < n < |x| && got + |x| <= BodyLen(h)
    ensures StretchItems(h, got, ss.inpubPktId, x)
         == PayloadItems(x[..n]) + StretchItems(h, got + n, ss.inpubPktId, x[n..])
  {
    assert x == x[..n] + x[n..];
    PayloadItemsConcat(x[..n], x[n..]);
    Assoc(PayloadItems(x[..n]), PayloadItems(x[n..]),
          if got + |x| == BodyLen(h) then EndItems(PacketQos(h[0]), ss.inpubPktId) else []);
  }

  /** Bytes of a PUBLISH before its payload. */
  function HeadLen(qos: nat, x: seq<byte>): nat
    requires |x| >= 2
  {
    2 + FromU16(x[0], x[1]) + if qos > 0 then 2 else 0
  }

  /** The variable header is there, and fits the buffer with its terminator or identifier. */
  predicate StartOk(qos: nat, hdrLen: nat, x: seq<byte>)
    requires hdrLen <= BUFFER_LEN
  {
    && |x| >= 2 && HeadLen(qos, x) <= |x|
    && HeadLen(qos, x) + (if qos > 0 then 0 else 1) <= BUFFER_LEN - hdrLen
  }

  function TopicOf(x: seq<byte>): seq<byte>
    requires |x| >= 2 && 2 + FromU16(x[0], x[1]) <= |x|
  {
    x[2..2 + FromU16(x[0], x[1])]
  }

  function IdOf(qos: nat, x: seq<byte>): u16
    requires |x| >= 2 && HeadLen(qos, x) <= |x|
  {
    var n := HeadLen(qos, x);
    if qos > 0 then FromU16(x[n - 2], x[n - 1]) else 0
  }

  lemma StartHandled(ss: Session, qos: nat, hdrLen: nat, x: seq<byte>, rest: nat)
    requires hdrLen <= BUFFER_LEN
    ensures HandlePublishStart(ss, qos, hdrLen, x, rest)
      == if StartOk(qos, hdrLen, x) then
           Handled(ss.(inpubPktId := IdOf(qos, x)),
                   [Announce(TopicOf(x), rest + |x| - HeadLen(qos, x))]
                   + PayloadEvents(qos, IdOf(qos, x), x[HeadLen(qos, x)..], rest),
                   Accepted)
         else Handled(ss, [], Disconnected)
  {
  }

  /** The buffer's limit on the first frame does not matter: what it cuts off cannot belong
      to a variable header that fits. */
  lemma StartFrame(qos: nat, hdrLen: nat, x: seq<byte>, n: nat)
    requires hdrLen <= BUFFER_LEN && n == Min(|x|, BUFFER_LEN - hdrLen)
    ensures StartOk(qos, hdrLen, x[..n]) <==> StartOk(qos, hdrLen, x)
    ensures StartOk(qos, hdrLen, x) ==>
      HeadLen(qos, x) <= n && HeadLen(qos, x[..n]) == HeadLen(qos, x)
      && TopicOf(x[..n]) == TopicOf(x) && IdOf(qos, x[..n]) == IdOf(qos, x)
  {
  }

  function StartItems(h: seq<byte>, x: seq<byte>): seq<Item>
    requires Whole(h) && StartOk(PacketQos(h[0]), |h|, x) && |x| <= BodyLen(h)
  {
    var n := HeadLen(PacketQos(h[0]), x);
    [Other(Announce(TopicOf(x), BodyLen(h) - n))] + StretchItems(h, n, IdOf(PacketQos(h[0]), x), x[n..])
  }

  ghost predicate Started(o: Outcome, h: seq<byte>, ss: Session, x: seq<byte>)
    requires Whole(h) && 0 < |x| <= BodyLen(h)
  {
    var qos := PacketQos(h[0]);
    if StartOk(qos, |h|, x) then
      && o.phase == PhaseAfter(h, |x|) && o.session == ss.(inpubPktId := IdOf(qos, x)) && o.status == Accepted
      && Items(o.events) == StartItems(h, x)
    else
      o.status == Disconnected && o.session == ss && o.events == []
  }

  /** The first frame of a PUBLISH. */
  lemma FeedPublishStart(h: seq<byte>, ss: Session, x: seq<byte>)
    requires ValidPhase(Body(h, 0)) && InPublish(Body(h, 0)) && x != []
    ensures var n := FrameLen(|x|, BodyLen(h), |h|);
      var r := HandlePublishStart(ss, PacketQos(h[0]), |h|, x[..n], BodyLen(h) - n);
      0 < n && Feed(Body(h, 0), ss, x)
        == if r.status.Accepted? then
             After(r.events, Feed(if n == BodyLen(h) then Header([]) else Body(h, n), r.session, x[n..]))
           else Outcome(Body(h, n), r.session, r.events, r.status)
  {
  }

  lemma StartEventsItems(h: seq<byte>, x: seq<byte>, n: nat)
    requires Whole(h) && n <= |x| <= BodyLen(h) && StartOk(PacketQos(h[0]), |h|, x[..n])
    requires HeadLen(PacketQos(h[0]), x) <= n && TopicOf(x[..n]) == TopicOf(x)
    ensures var qos, k, id := PacketQos(h[0]), HeadLen(PacketQos(h[0]), x), IdOf(PacketQos(h[0]), x[..n]);
      Items([Announce(TopicOf(x), BodyLen(h) - k)] + PayloadEvents(qos, id, x[k..n], BodyLen(h) - n))
      == [Other(Announce(TopicOf(x), BodyLen(h) - k))] + StretchItems(h, k, id, x[k..n])
  {
    var qos, k, id := PacketQos(h[0]), HeadLen(PacketQos(h[0]), x), IdOf(PacketQos(h[0]), x[..n]);
    var first, more := [Announce(TopicOf(x), BodyLen(h) - k)], PayloadEvents(qos, id, x[k..n], BodyLen(h) - n);
    ItemsConcat(first, more);
    assert first[1..] == [];
    PayloadEventsItems(qos, id, x[k..n], BodyLen(h) - n);
  }

  lemma StretchStart(h: seq<byte>, ss: Session, x: seq<byte>)
    requires ValidPhase(Body(h, 0)) && InPublish(Body(h, 0)) && 0 < |x| <= BodyLen(h)
    ensures Started(Feed(Body(h, 0), ss, x), h, ss, x)
  {
    hide Feed, NextRound, HandlePublishStart, PayloadEvents, Items, PayloadItems, StretchItems, BodyLen, StartOk, TopicOf, IdOf;
    var qos, n := PacketQos(h[0]), FrameLen(|x|, BodyLen(h), |h|);
    FeedPublishStart(h, ss, x);
    StartHandled(ss, qos, |h|, x[..n], BodyLen(h) - n);
    StartFrame(qos, |h|, x, n);
    if StartOk(qos, |h|, x) {
      var k := HeadLen(qos, x);
      var ss' := ss.(inpubPktId := IdOf(qos, x));
      assert x[..n][k..] == x[k..n];
      StartEventsItems(h, x, n);
      var events := [Announce(TopicOf(x), BodyLen(h) - k)] + PayloadEvents(qos, IdOf(qos, x), x[k..n], BodyLen(h) - n);
      if n == |x| {
        assert x[n..] == [] && x[k..n] == x[k..];
        FeedNothing(PhaseAfter(h, n), ss');
        assert events + [] == events;
      } else {
        Stretch(h, n, ss', x[n..]);
        StartJoin(h, ss', x, n, events, Feed(Body(h, n), ss', x[n..]));
      }
    }
  }

  lemma StartJoin(h: seq<byte>, ss: Session, x: seq<byte>, n: nat, events: seq<Event>, more: Outcome)
    requires Whole(h) && 0 < n < |x| <= BodyLen(h) && StartOk(PacketQos(h[0]), |h|, x)
    requires HeadLen(PacketQos(h[0]), x) <= n && ss.inpubPktId == IdOf(PacketQos(h[0]), x)
    requires var k := HeadLen(PacketQos(h[0]), x);
      Items(events) == [Other(Announce(TopicOf(x), BodyLen(h) - k))] + StretchItems(h, k, ss.inpubPktId, x[k..n])
    requires Stretched(more, h, n, ss, x[n..])
    ensures Items(After(events, more).events) == StartItems(h, x)
  {
    hide Items, PayloadItems, TopicOf, IdOf, FromU16, BodyLen, PacketQos;
    var k := HeadLen(PacketQos(h[0]), x);
    AfterItems(events, more);
    assert x[k..] == x[k..n] + x[n..];
    PayloadItemsConcat(x[k..n], x[n..]);
    JoinParts([Other(Announce(TopicOf(x), BodyLen(h) - k))], PayloadItems(x[k..n]), PayloadItems(x[n..]),
      if |x| == BodyLen(h) then EndItems(PacketQos(h[0]), ss.inpubPktId) else []);
  }

  lemma JoinParts<T>(start: seq<T>, a: seq<T>, b: seq<T>, end: seq<T>)
    ensures (start + (a + [])) + (b + end) == start + ((a + b) + end)
  {
  }

  /** The parser's state alone tells that `a` ended between rounds. */
  ghost predicate AtRest(p: Phase) {
    p.Header? || p.got == 0
  }

  /** More bytes do not change a round that had all it wanted. */
  lemma RoundPrefix(p: Phase, ss: Session, a: seq<byte>, b: seq<byte>)
    requires ValidPhase(p) && a != []
    requires p.Body? ==> FrameLen(|a|, BodyLen(p.h) - p.got, |p.h|) == FrameLen(|a + b|, BodyLen(p.h) - p.got, |p.h|)
    ensures NextRound(p, ss, a + b) == NextRound(p, ss, a)
  {
    if p.Body? {
      var n := FrameLen(|a|, BodyLen(p.h) - p.got, |p.h|);
      assert (a + b)[..n] == a[..n];
    }
  }

  /** A frame cut short leaves the parser inside a body. */
  lemma ShortFrame(h: seq<byte>, got: nat, ss: Session, a: seq<byte>, b: seq<byte>)
    requires ValidPhase(Body(h, got)) && a != []
    requires FrameLen(|a|, BodyLen(h) - got, |h|) != FrameLen(|a + b|, BodyLen(h) - got, |h|)
    ensures got + |a| < BodyLen(h)
    ensures var o := Feed(Body(h, got), ss, a);
      o.status.Accepted? ==> o.phase == Body(h, got + |a|)
  {
    assert a[|a|..] == [];
  }

  /** Cutting between rounds changes nothing at all. */
  lemma {:induction false} CutAtRest(p: Phase, ss: Session, a: seq<byte>, b: seq<byte>)
    requires ValidPhase(p)
    requires Feed(p, ss, a).status.Accepted? && AtRest(Feed(p, ss, a).phase)
    ensures var o := Feed(p, ss, a);
      Feed(p, ss, a + b) == After(o.events, Feed(o.phase, o.session, b))
    decreases |a|
  {
    hide NextRound;
    if a == [] {
      assert a + b == b;
      AfterAfter([], [], Feed(p, ss, b));
    } else if p.Body? && FrameLen(|a|, BodyLen(p.h) - p.got, |p.h|) != FrameLen(|a + b|, BodyLen(p.h) - p.got, |p.h|) {
      ShortFrame(p.h, p.got, ss, a, b);
    } else {
      RoundPrefix(p, ss, a, b);
      var r := NextRound(p, ss, a);
      CutAtRest(r.phase, r.session, a[r.used..], b);
      assert (a + b)[r.used..] == a[r.used..] + b;
      var o := Feed(r.phase, r.session, a[r.used..]);
      AfterAfter(r.events, o.events, Feed(o.phase, o.session, b));
    }
  }

  /** A cut the client can take: between packets, in a fixed header, just after it, or in a
      PUBLISH whose first frame has been handled. */
  ghost predicate CleanCut(p: Phase) {
    p.Body? && p.got > 0 ==> InPublish(p)
  }

  /** Cut or not, the same is left behind, and the same is reported in all but the way that
      payloads are divided. */
  ghost predicate SameAs(whole: Outcome, first: Outcome, second: Outcome) {
    && whole.phase == second.phase && whole.session == second.session && whole.status == second.status
    && Items(whole.events) == Items(first.events) + Items(second.events)
  }

  lemma SameAsAfter(events: seq<Event>, whole: Outcome, first: Outcome, second: Outcome)
    requires SameAs(whole, first, second)
    ensures SameAs(After(events, whole), After(events, first), second)
  {
    AfterItems(events, whole);
    AfterItems(events, first);
    Assoc(Items(events), Items(first.events), Items(second.events));
  }

  lemma SameAsThen(whole: Outcome, first: Outcome, second: Outcome, rest: Outcome)
    requires SameAs(whole, first, second)
    ensures SameAs(After(whole.events, rest), first, After(second.events, rest))
  {
    AfterItems(whole.events, rest);
    AfterItems(second.events, rest);
    Assoc(Items(first.events), Items(second.events), Items(rest.events));
  }

  /** A cut inside a PUBLISH, when the second segment does not go past its end. */
  lemma CutInStretch(h: seq<byte>, got: nat, ss: Session, a: seq<byte>, b: seq<byte>)
    requires ValidPhase(Body(h, got)) && InPublish(Body(h, got)) && a != [] && got + |a + b| <= BodyLen(h)
    requires got + |a| < BodyLen(h)
    requires Feed(Body(h, got), ss, a).status.Accepted?
    ensures var o := Feed(Body(h, got), ss, a);
      && o.phase == Body(h, got + |a|)
      && SameAs(Feed(Body(h, got), ss, a + b), o, Feed(o.phase, o.session, b))
  {
    hide Feed, Items, StretchItems, StartItems, PayloadItems, StartOk, BodyLen, TopicOf, IdOf;
    var o := Feed(Body(h, got), ss, a);
    if got > 0 {
      Stretch(h, got, ss, a);
      Stretch(h, got, ss, a + b);
      Stretch(h, got + |a|, ss, b);
      CutInRest(h, got, ss, a, b);
    } else {
      StretchStart(h, ss, a);
      StretchStart(h, ss, a + b);
      CutInStart(h, ss, a, b);
      Stretch(h, |a|, o.session, b);
    }
  }

  lemma CutInRest(h: seq<byte>, got: nat, ss: Session, a: seq<byte>, b: seq<byte>)
    requires ValidPhase(Body(h, got)) && got + |a| < BodyLen(h)
    ensures StretchItems(h, got, ss.inpubPktId, a + b)
         == StretchItems(h, got, ss.inpubPktId, a) + StretchItems(h, got + |a|, ss.inpubPktId, b)
  {
    hide PayloadItems, BodyLen, EndItems;
    PayloadItemsConcat(a, b);
    JoinParts([], PayloadItems(a), PayloadItems(b),
      if got + |a + b| == BodyLen(h) then EndItems(PacketQos(h[0]), ss.inpubPktId) else []);
    assert [] + (PayloadItems(a) + []) == PayloadItems(a) + [];
  }

  lemma CutInStart(h: seq<byte>, ss: Session, a: seq<byte>, b: seq<byte>)
    requires Whole(h) && |a| < BodyLen(h) && |a + b| <= BodyLen(h) && StartOk(PacketQos(h[0]), |h|, a)
    ensures StartOk(PacketQos(h[0]), |h|, a + b)
    ensures IdOf(PacketQos(h[0]), a + b) == IdOf(PacketQos(h[0]), a)
    ensures StartItems(h, a + b) == StartItems(h, a) + StretchItems(h, |a|, IdOf(PacketQos(h[0]), a), b)
  {
    hide PayloadItems, BodyLen, EndItems;
    var k, id := HeadLen(PacketQos(h[0]), a), IdOf(PacketQos(h[0]), a);
    assert (a + b)[k..] == a[k..] + b;
    assert TopicOf(a + b) == TopicOf(a);
    PayloadItemsConcat(a[k..], b);
    JoinParts([Other(Announce(TopicOf(a), BodyLen(h) - k))], PayloadItems(a[k..]), PayloadItems(b),
      if |a + b| == BodyLen(h) then EndItems(PacketQos(h[0]), id) else []);
  }

  /** A cut inside a PUBLISH, however far the second segment goes. */
  lemma CutInPublish(h: seq<byte>, got: nat, ss: Session, a: seq<byte>, b: seq<byte>)
    requires ValidPhase(Body(h, got)) && InPublish(Body(h, got)) && a != [] && got + |a| < BodyLen(h)
    requires Feed(Body(h, got), ss, a).status.Accepted?
    ensures var o := Feed(Body(h, got), ss, a);
      && o.phase == Body(h, got + |a|)
      && SameAs(Feed(Body(h, got), ss, a + b), o, Feed(o.phase, o.session, b))
  {
    hide Feed, Items, BodyLen;
    var rest := BodyLen(h) - got - |a|;
    if |b| <= rest {
      CutInStretch(h, got, ss, a, b);
    } else {
      var b1, b2 := b[..rest], b[rest..];
      assert b == b1 + b2 && a + b == (a + b1) + b2;
      CutInStretch(h, got, ss, a, b1);
      var o := Feed(Body(h, got), ss, a);
      StretchEnds(h, got, ss, a, b1);
      CutAtRest(Body(h, got), ss, a + b1, b2);
      CutAtRest(o.phase, o.session, b1, b2);
      var whole, second := Feed(Body(h, got), ss, a + b1), Feed(o.phase, o.session, b1);
      SameAsThen(whole, o, second, Feed(second.phase, second.session, b2));
    }
  }

  lemma StretchEnds(h: seq<byte>, got: nat, ss: Session, a: seq<byte>, b: seq<byte>)
    requires ValidPhase(Body(h, got)) && InPublish(Body(h, got)) && a != [] && b != [] && got + |a + b| == BodyLen(h)
    requires Feed(Body(h, got), ss, a).status.Accepted?
    ensures var o := Feed(Body(h, got), ss, a);
      && o.phase == Body(h, got + |a|)
      && Feed(o.phase, o.session, b).status.Accepted? && Feed(o.phase, o.session, b).phase == Header([])
  {
    hide Feed, Items, StretchItems, BodyLen;
    CutInStretch(h, got, ss, a, b);
    Stretch(h, got + |a|, Feed(Body(h, got), ss, a).session, b);
  }

  /** Cutting a stream in two, at a place the client can take: the two segments together
      have the effect of the one. */
  lemma {:induction false} CutTheorem(p: Phase, ss: Session, a: seq<byte>, b: seq<byte>)
    requires ValidPhase(p)
    requires Feed(p, ss, a).status.Accepted? && CleanCut(Feed(p, ss, a).phase)
    ensures var o := Feed(p, ss, a);
      SameAs(Feed(p, ss, a + b), o, Feed(o.phase, o.session, b))
    decreases |a|
  {
    hide NextRound, Items, BodyLen;
    if a == [] {
      assert a + b == b;
      NothingFirst(p, ss, b);
    } else if p.Body? && InPublish(p) && p.got + |a| < BodyLen(p.h) {
      CutInPublish(p.h, p.got, ss, a, b);
    } else if p.Body? && FrameLen(|a|, BodyLen(p.h) - p.got, |p.h|) != FrameLen(|a + b|, BodyLen(p.h) - p.got, |p.h|) {
      ShortFrame(p.h, p.got, ss, a, b);
    } else {
      RoundPrefix(p, ss, a, b);
      var r := NextRound(p, ss, a);
      CutTheorem(r.phase, r.session, a[r.used..], b);
      assert (a + b)[r.used..] == a[r.used..] + b;
      var o := Feed(r.phase, r.session, a[r.used..]);
      SameAsAfter(r.events, Feed(r.phase, r.session, a[r.used..] + b), o, Feed(o.phase, o.session, b));
    }
  }

  lemma NothingFirst(p: Phase, ss: Session, b: seq<byte>)
    requires ValidPhase(p)
    ensures SameAs(Feed(p, ss, b), Outcome(p, ss, [], Accepted), Feed(p, ss, b))
  {
    assert [] + Items(Feed(p, ss, b).events) == Items(Feed(p, ss, b).events);
  }
}
