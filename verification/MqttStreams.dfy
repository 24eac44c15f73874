/** Well-formed packets, streams of them, and what the client makes of a stream delivered in
    any segments. */
module MqttStreams {
  import opened Bytes
  import opened MqttMessages
  import opened MqttDeadlines
  import opened MqttReceive
  import opened MqttSegments

  /** Largest remaining length of section 2.2.3 of MQTT 3.1.1. */
  const MAX_BODY := 268435455

  /** Packets a server sends. `Reply` is a PUBACK, PUBREC, PUBREL, PUBCOMP or UNSUBACK; a
      SUBACK answers the one topic that this client asks for at a time. */
  datatype Packet =
    | Publish(dup: nat, qos: nat, retain: nat, topic: seq<byte>, pktId: u16, payload: seq<byte>)
    | Connack(flags: byte)
    | Reply(msgType: nat, pktId: u16)
    | Suback(pktId: u16, code: byte)
    | Pingresp

  /** The part of a body that must come in one segment. */
  function Head(p: Packet): seq<byte>
    requires p.Publish? ==> |p.topic| < 0x1_0000
  {
    match p
    case Publish(_, qos, _, topic, id, _) => Str(topic) + if qos > 0 then U16(id) else []
    case Connack(flags) => [flags, 0]
    case Reply(_, id) => U16(id)
    case Suback(id, code) => U16(id) + [code]
    case Pingresp => []
  }

  function Tail(p: Packet): seq<byte> {
    if p.Publish? then p.payload else []
  }

  function HeaderOf(p: Packet): (h: seq<byte>)
    requires p.Publish? ==> |p.topic| < 0x1_0000
    ensures |h| >= 2
  {
    var n := |Head(p)| + |Tail(p)|;
    match p
    case Publish(dup, qos, retain, _, _, _) => FixedHeader(PUBLISH, dup, qos, retain, n)
    case Connack(_) => FixedHeader(CONNACK, 0, 0, 0, n)
    case Reply(msgType, _) => FixedHeader(msgType, 0, if msgType == PUBREL then 1 else 0, 0, n)
    case Suback(_, _) => FixedHeader(SUBACK, 0, 0, 0, n)
    case Pingresp => FixedHeader(PINGRESP, 0, 0, 0, n)
  }

  predicate WellFormed(p: Packet) {
    && (p.Publish? ==> |p.topic| < 0x1_0000 && p.qos <= 2 && p.dup <= 1 && p.retain <= 1)
    && |Head(p)| + |Tail(p)| <= MAX_BODY
    && (p.Reply? ==> p.msgType in {PUBACK, PUBREC, PUBREL, PUBCOMP, UNSUBACK})
    && (p.Reply? || p.Suback? ==> p.pktId > 0)
  }

  function Encode(p: Packet): seq<byte>
    requires WellFormed(p)
  {
    HeaderOf(p) + (Head(p) + Tail(p))
  }

  /** Fixed header, topic and packet identifier (or terminator) fit the receive buffer. */
  predicate FitsBuffer(p: Packet)
    requires WellFormed(p)
  {
    p.Publish? ==> |HeaderOf(p)| + |Head(p)| + (if p.qos > 0 then 0 else 1) <= BUFFER_LEN
  }

  /** What a packet does to the session. */
  function SessionAfter(ss: Session, p: Packet): Session {
    match p
    case Publish(_, qos, _, _, id, _) => ss.(inpubPktId := if qos > 0 then id else 0)
    case Connack(_) => if ss.conn.MqttConnecting? then ss.(conn := MqttConnected, cyclicTick := 0) else ss
    case Reply(msgType, id) => if msgType == PUBREC || msgType == PUBREL then ss else ss.(pending := Take(ss.pending, id))
    case Suback(id, _) => ss.(pending := Take(ss.pending, id))
    case Pingresp => ss
  }

  /** The request a reply completes, if it is pending. */
  function Completes(ss: Session, id: u16, ok: bool): seq<Item> {
    var i := Find(ss.pending, id);
    if i < |ss.pending| && ss.pending[i].cb.Some? then [Other(Completed(ss.pending[i].cb.value, ok))] else []
  }

  /** What a packet makes the client report: a PUBLISH its topic, its length, its payload and
      one end mark, and the acknowledgement its quality of service asks for. */
  function Reports(ss: Session, p: Packet): seq<Item> {
    match p
    case Publish(_, qos, _, topic, id, payload) =>
      [Other(Announce(topic, |payload|))] + (PayloadItems(payload) + EndItems(qos, if qos > 0 then id else 0))
    case Connack(_) => if ss.conn.MqttConnecting? then [Other(ConnectionUp)] else []
    case Reply(msgType, id) =>
      if msgType == PUBREC then [Other(Respond(PUBREL, id, 1))]
      else if msgType == PUBREL then [Other(Respond(PUBCOMP, id, 0))]
      else Completes(ss, id, true)
    case Suback(id, code) => Completes(ss, id, code < 3)
    case Pingresp => []
  }

  lemma ControlByteFacts(msgType: nat, dup: nat, qos: nat, retain: nat)
    requires msgType < 16 && dup <= 1 && qos <= 3 && retain <= 1
    ensures PacketType(ControlByte(msgType, dup, qos, retain)) == msgType
    ensures PacketQos(ControlByte(msgType, dup, qos, retain)) == qos
  {
    hide ControlByte;
    ControlByteSum(msgType, dup, qos, retain);
    Digits(msgType, dup * 8 + qos * 2 + retain);
    HalfMod(msgType * 2 + dup, qos, retain);
  }

  lemma ControlByteSum(msgType: nat, dup: nat, qos: nat, retain: nat)
    requires msgType < 16 && dup <= 1 && qos <= 3 && retain <= 1
    ensures ControlByte(msgType, dup, qos, retain) == msgType * 16 + (dup * 8 + qos * 2 + retain)
  {
  }

  lemma HalfMod(q: nat, r: nat, s: nat)
    requires r < 4 && s < 2
    ensures ((q * 4 + r) * 2 + s) / 2 % 4 == r
  {
    assert ((q * 4 + r) * 2 + s) / 2 == q * 4 + r;
  }

  lemma Digits(q: nat, r: nat)
    requires r < 16
    ensures (q * 16 + r) / 16 == q && (q * 16 + r) % 16 == r
  {
  }

  lemma WholeHeader(control: byte, n: nat)
    requires n <= MAX_BODY
    ensures Whole([control] + VarLen(n)) && BodyLen([control] + VarLen(n)) == n
  {
    hide VarLen, VarLenValue;
    VarLenRoundTrip(n);
    VarLenSize(n);
    var h := [control] + VarLen(n);
    assert h[1..] == VarLen(n);
    var start := h[..|h| - 1];
    forall k | 1 <= k < |start| ensures start[k] >= 128 {
      assert start[k] == VarLen(n)[k - 1];
    }
  }

  lemma FixedHeaderFacts(msgType: nat, dup: nat, qos: nat, retain: nat, n: nat)
    requires msgType < 16 && dup <= 1 && qos <= 3 && retain <= 1 && n <= MAX_BODY
    ensures var h := FixedHeader(msgType, dup, qos, retain, n);
      Whole(h) && BodyLen(h) == n && PacketType(h[0]) == msgType && PacketQos(h[0]) == qos
  {
    hide VarLen, VarLenValue, ControlByte, PacketType, PacketQos, Whole, BodyLen;
    ControlByteFacts(msgType, dup, qos, retain);
    WholeHeader(ControlByte(msgType, dup, qos, retain), n);
  }

  lemma HeaderFacts(p: Packet)
    requires WellFormed(p)
    ensures var h := HeaderOf(p);
      && Whole(h) && BodyLen(h) == |Head(p)| + |Tail(p)|
      && (p.Publish? ==> PacketType(h[0]) == PUBLISH && PacketQos(h[0]) == p.qos)
      && (p.Connack? ==> PacketType(h[0]) == CONNACK)
      && (p.Reply? ==> PacketType(h[0]) == p.msgType)
      && (p.Suback? ==> PacketType(h[0]) == SUBACK)
      && (p.Pingresp? ==> PacketType(h[0]) == PINGRESP)
  {
    hide FixedHeader, PacketType, PacketQos, Whole, BodyLen;
    var n := |Head(p)| + |Tail(p)|;
    match p
    case Publish(dup, qos, retain, _, _, _) => FixedHeaderFacts(PUBLISH, dup, qos, retain, n);
    case Connack(_) => FixedHeaderFacts(CONNACK, 0, 0, 0, n);
    case Reply(msgType, _) => FixedHeaderFacts(msgType, 0, if msgType == PUBREL then 1 else 0, 0, n);
    case Suback(_, _) => FixedHeaderFacts(SUBACK, 0, 0, 0, n);
    case Pingresp => FixedHeaderFacts(PINGRESP, 0, 0, 0, n);
  }

  /** Reading a fixed header, in any number of segments, leads to its body. */
  lemma {:induction false} FeedHeaderPart(h: seq<byte>, i: nat, j: nat, ss: Session)
    requires Whole(h) && i <= j < |h|
    ensures ValidPhase(Header(h[..i]))
    ensures Feed(Header(h[..i]), ss, h[i..j]) == Outcome(Header(h[..j]), ss, [], Accepted)
    decreases j - i
  {
    assert Continues(h[..i]) by {
      assert forall k :: 1 <= k < i ==> h[..i][k] == h[..|h| - 1][k];
    }
    if i < j {
      assert h[..i] + [h[i]] == h[..i + 1];
      assert i > 0 ==> h[i] == h[..|h| - 1][i] >= 128;
      assert h[i..j][0] == h[i] && h[i..j][1..] == h[i + 1..j];
      FeedHeaderPart(h, i + 1, j, ss);
      AfterAfter([], [], Feed(Header(h[..i + 1]), ss, h[i + 1..j]));
    } else {
      assert h[i..j] == [];
    }
  }

  lemma FeedHeader(h: seq<byte>, ss: Session)
    requires Whole(h) && BodyLen(h) > 0
    ensures Feed(Header([]), ss, h) == Outcome(Body(h, 0), ss, [], Accepted)
  {
    var n := |h| - 1;
    assert h == h[..n] + [h[n]] && h[..0] == [] && h[0..n] == h[..n];
    FeedHeaderPart(h, 0, n, ss);
    CutAtRest(Header([]), ss, h[..n], [h[n]]);
    LastHeaderByte(h, ss);
    AfterAfter([], [], Feed(Header(h[..n]), ss, [h[n]]));
  }

  lemma LastHeaderByte(h: seq<byte>, ss: Session)
    requires Whole(h) && BodyLen(h) > 0 && ValidPhase(Header(h[..|h| - 1]))
    ensures Feed(Header(h[..|h| - 1]), ss, [h[|h| - 1]]) == Outcome(Body(h, 0), ss, [], Accepted)
  {
    var n := |h| - 1;
    assert h == h[..n] + [h[n]];
    assert [h[n]][1..] == [];
    FeedNothing(Body(h, 0), ss);
    AfterAfter([], [], Outcome(Body(h, 0), ss, [], Accepted));
  }

  /** A body other than a PUBLISH's that comes in one frame. */
  lemma SmallBody(h: seq<byte>, ss: Session, x: seq<byte>)
    requires Whole(h) && PacketType(h[0]) != PUBLISH && 0 < |x| <= BodyLen(h) && |x| <= 200
    ensures var r := Handle(ss, h[0], |h|, true, x, BodyLen(h) - |x|);
      Feed(Body(h, 0), ss, x)
      == Outcome(if r.status.Accepted? then PhaseAfter(h, |x|) else Body(h, |x|), r.session, r.events, r.status)
  {
    hide Handle, BodyLen;
    var r := Handle(ss, h[0], |h|, true, x, BodyLen(h) - |x|);
    assert x[..|x|] == x && x[|x|..] == [];
    assert NextRound(Body(h, 0), ss, x).used == |x|;
    if r.status.Accepted? {
      FeedNothing(PhaseAfter(h, |x|), r.session);
      assert r.events + [] == r.events;
    }
  }

  lemma OneEvent(e: Event)
    requires !e.Data?
    ensures Items([e]) == [Other(e)]
  {
    assert [e][1..] == [];
  }

  /** The handler on a whole small body. */
  lemma HandleSmall(ss: Session, p: Packet, hdrLen: nat, control: byte)
    requires WellFormed(p) && !p.Publish? && !p.Pingresp? && hdrLen <= BUFFER_LEN
    requires PacketType(control) == (if p.Connack? then CONNACK else if p.Suback? then SUBACK else p.msgType)
    ensures var r := Handle(ss, control, hdrLen, true, Head(p), 0);
      r.status == Accepted && r.session == SessionAfter(ss, p) && Items(r.events) == Reports(ss, p)
  {
    var r := Handle(ss, control, hdrLen, true, Head(p), 0);
    if p.Reply? || p.Suback? {
      U16RoundTrip(p.pktId);
      assert Head(p)[0] == U16(p.pktId)[0] && Head(p)[1] == U16(p.pktId)[1];
    }
    if |r.events| == 1 {
      OneEvent(r.events[0]);
    }
  }

  lemma U16RoundTrip(v: u16)
    ensures FromU16(U16(v)[0], U16(v)[1]) == v
  {
  }

  /** What the first frames of a PUBLISH say, once they hold the variable header. */
  lemma PublishHead(p: Packet, x: seq<byte>)
    requires WellFormed(p) && p.Publish? && x <= Head(p) + p.payload
    ensures |x| >= 2 ==> HeadLen(p.qos, x) == |Head(p)|
    ensures |x| >= |Head(p)| ==>
      |x| >= 2 && TopicOf(x) == p.topic && IdOf(p.qos, x) == (if p.qos > 0 then p.pktId else 0)
      && x[|Head(p)|..] == p.payload[..|x| - |Head(p)|]
  {
    hide WellFormed;
    var head := Head(p);
    TopicFirst(p);
    if |x| >= 2 {
      assert x[0] == head[0] && x[1] == head[1];
    }
    if |x| >= |head| {
      var y := x[|head|..];
      assert x == head + y && y == p.payload[..|x| - |head|];
      HeadParts(p, y);
    }
  }

  lemma TopicFirst(p: Packet)
    requires WellFormed(p) && p.Publish?
    ensures |Head(p)| == 2 + |p.topic| + (if p.qos > 0 then 2 else 0)
    ensures FromU16(Head(p)[0], Head(p)[1]) == |p.topic|
  {
    U16RoundTrip(|p.topic|);
    assert Head(p)[0] == U16(|p.topic|)[0] && Head(p)[1] == U16(|p.topic|)[1];
  }

  lemma HeadParts(p: Packet, y: seq<byte>)
    requires WellFormed(p) && p.Publish? && FromU16(Head(p)[0], Head(p)[1]) == |p.topic|
    ensures TopicOf(Head(p) + y) == p.topic
    ensures IdOf(p.qos, Head(p) + y) == if p.qos > 0 then p.pktId else 0
  {
    var x, t := Head(p) + y, |p.topic|;
    assert x[2..2 + t] == p.topic;
    if p.qos > 0 {
      U16RoundTrip(p.pktId);
      assert x[2 + t] == U16(p.pktId)[0] && x[3 + t] == U16(p.pktId)[1];
    }
  }

  /** A PUBLISH, or a first part of it, is taken exactly if its variable header is there and
      fits the buffer. */
  lemma PublishPart(p: Packet, ss: Session, x: seq<byte>)
    requires WellFormed(p) && p.Publish? && 0 < |x| && x <= Head(p) + p.payload
    ensures Whole(HeaderOf(p)) && BodyLen(HeaderOf(p)) == |Head(p)| + |p.payload|
    ensures var o := Feed(Body(HeaderOf(p), 0), ss, x);
      && (o.status.Accepted? <==> |x| >= |Head(p)| && FitsBuffer(p))
      && (o.status.Accepted? ==> o.phase == PhaseAfter(HeaderOf(p), |x|) && o.session == SessionAfter(ss, p))
      && (o.status.Accepted? && |x| == |Head(p)| + |p.payload| ==> Items(o.events) == Reports(ss, p))
  {
    hide Feed, Items, PayloadItems, TopicOf, IdOf, HeaderOf, Head, BodyLen, Whole;
    HeaderFacts(p);
    PublishHead(p, x);
    StretchStart(HeaderOf(p), ss, x);
    assert p.payload[..|p.payload|] == p.payload;
  }

  /** One whole packet. */
  lemma PacketFed(p: Packet, ss: Session)
    requires WellFormed(p)
    ensures var o := Feed(Header([]), ss, Encode(p));
      && (o.status.Accepted? <==> FitsBuffer(p))
      && (FitsBuffer(p) ==>
            o.phase == Header([]) && o.session == SessionAfter(ss, p) && Items(o.events) == Reports(ss, p))
  {
    hide Feed, Items, HeaderOf, Head, BodyLen, PacketType, Handle;
    HeaderFacts(p);
    var h, body := HeaderOf(p), Head(p) + Tail(p);
    if p.Pingresp? {
      PingFed(ss);
    } else {
      BodyNotEmpty(p);
      FeedHeader(h, ss);
      CutAtRest(Header([]), ss, h, body);
      AfterAfter([], [], Feed(Body(h, 0), ss, body));
      if p.Publish? {
        PublishPart(p, ss, body);
      } else {
        assert body == Head(p);
        SmallBody(h, ss, body);
        HandleSmall(ss, p, |h|, h[0]);
      }
    }
  }

  lemma BodyNotEmpty(p: Packet)
    requires WellFormed(p) && !p.Pingresp?
    ensures |Head(p) + Tail(p)| > 0 && (!p.Publish? ==> Tail(p) == [] && |Head(p)| <= 3)
  {
  }

  lemma PingFed(ss: Session)
    ensures WellFormed(Pingresp) && FitsBuffer(Pingresp)
    ensures Feed(Header([]), ss, Encode(Pingresp)) == Outcome(Header([]), ss, [], Accepted)
    ensures Items([]) == []
  {
    var h := HeaderOf(Pingresp);
    HeaderFacts(Pingresp);
    assert VarLen(0) == [0];
    assert h == [h[0], 0] && Encode(Pingresp) == h;
    assert h[1..] == [0] && [0][1..] == [];
    assert h[..1] + [0] == h;
    assert [] + [h[0]] == [h[0]];
    AfterAfter([], [], Outcome(Header([]), ss, [], Accepted));
  }

  /** Where a packet may be cut: not inside what must come in one segment. */
  predicate CleanIn(p: Packet, k: nat)
    requires WellFormed(p)
  {
    k <= |HeaderOf(p)| || |HeaderOf(p)| + |Head(p)| <= k
  }

  /** The beginning of a packet is taken, and leaves the client ready for the next segment,
      exactly if it ends at such a place. */
  lemma PartFed(p: Packet, ss: Session, k: nat)
    requires WellFormed(p) && FitsBuffer(p) && k < |Encode(p)|
    ensures var o := Feed(Header([]), ss, Encode(p)[..k]);
      o.status.Accepted? && CleanCut(o.phase) <==> CleanIn(p, k)
  {
    hide Feed, Items, HeaderOf, Head, BodyLen, PacketType, Handle;
    HeaderFacts(p);
    var h, body := HeaderOf(p), Head(p) + Tail(p);
    if k < |h| {
      assert Encode(p)[..k] == h[0..k] && h[..0] == [];
      FeedHeaderPart(h, 0, k, ss);
    } else {
      assert !p.Pingresp? by {
        if p.Pingresp? {
          PingBody();
        }
      }
      BodyNotEmpty(p);
      FeedHeader(h, ss);
      var x := body[..k - |h|];
      assert Encode(p)[..k] == h + x;
      CutAtRest(Header([]), ss, h, x);
      AfterAfter([], [], Feed(Body(h, 0), ss, x));
      if x == [] {
        FeedNothing(Body(h, 0), ss);
      } else if p.Publish? {
        PublishPart(p, ss, x);
      } else {
        SmallBody(h, ss, x);
      }
    }
  }

  lemma PingBody()
    ensures Head(Pingresp) + Tail(Pingresp) == []
  {
  }

  ghost predicate AllWellFormed(ps: seq<Packet>) {
    forall i :: 0 <= i < |ps| ==> WellFormed(ps[i]) && FitsBuffer(ps[i])
  }

  function EncodeAll(ps: seq<Packet>): seq<byte>
    requires AllWellFormed(ps)
  {
    if ps == [] then [] else Encode(ps[0]) + EncodeAll(ps[1..])
  }

  function SessionAfterAll(ss: Session, ps: seq<Packet>): Session
    decreases |ps|
  {
    if ps == [] then ss else SessionAfterAll(SessionAfter(ss, ps[0]), ps[1..])
  }

  function AllReports(ss: Session, ps: seq<Packet>): seq<Item>
    decreases |ps|
  {
    if ps == [] then [] else Reports(ss, ps[0]) + AllReports(SessionAfter(ss, ps[0]), ps[1..])
  }

  predicate CleanAt(ps: seq<Packet>, k: nat)
    requires AllWellFormed(ps)
  {
    if ps == [] then true
    else if k < |Encode(ps[0])| then CleanIn(ps[0], k)
    else CleanAt(ps[1..], k - |Encode(ps[0])|)
  }

  /** A stream delivered in one piece. */
  lemma {:induction false} StreamFed(ps: seq<Packet>, ss: Session)
    requires AllWellFormed(ps)
    ensures var o := Feed(Header([]), ss, EncodeAll(ps));
      && o.status == Accepted && o.phase == Header([])
      && o.session == SessionAfterAll(ss, ps) && Items(o.events) == AllReports(ss, ps)
    decreases |ps|
  {
    hide Feed, Items, Encode, Reports, SessionAfter, FitsBuffer, WellFormed;
    if ps == [] {
      FeedNothing(Header([]), ss);
      NoItems();
    } else {
      PacketFed(ps[0], ss);
      StreamFed(ps[1..], SessionAfter(ss, ps[0]));
      CutAtRest(Header([]), ss, Encode(ps[0]), EncodeAll(ps[1..]));
      var o := Feed(Header([]), ss, Encode(ps[0]));
      AfterItems(o.events, Feed(Header([]), o.session, EncodeAll(ps[1..])));
    }
  }

  lemma NoItems()
    ensures Items([]) == []
  {
  }

  /** The beginning of a stream is taken, and leaves the client ready for the next segment,
      exactly if it ends at a clean place. */
  lemma {:induction false} PrefixFed(ps: seq<Packet>, ss: Session, k: nat)
    requires AllWellFormed(ps) && k <= |EncodeAll(ps)|
    ensures var o := Feed(Header([]), ss, EncodeAll(ps)[..k]);
      o.status.Accepted? && CleanCut(o.phase) <==> CleanAt(ps, k)
    decreases |ps|
  {
    hide Feed, Items, Encode, Reports, SessionAfter, FitsBuffer, WellFormed, CleanIn;
    if ps == [] {
      FeedNothing(Header([]), ss);
    } else {
      var first, rest := Encode(ps[0]), EncodeAll(ps[1..]);
      assert EncodeAll(ps) == first + rest;
      if k < |first| {
        assert EncodeAll(ps)[..k] == first[..k];
        PartFed(ps[0], ss, k);
      } else {
        assert EncodeAll(ps)[..k] == first + rest[..k - |first|];
        PacketFed(ps[0], ss);
        PrefixFed(ps[1..], SessionAfter(ss, ps[0]), k - |first|);
        CutAtRest(Header([]), ss, first, rest[..k - |first|]);
      }
    }
  }

  /** The parser on the segments of a connection; the client closes it at the first outcome
      other than acceptance. */
  function FeedAll(p: Phase, ss: Session, segments: seq<seq<byte>>): Outcome
    requires ValidPhase(p)
    decreases |segments|
  {
    if segments == [] then Outcome(p, ss, [], Accepted)
    else
      var o := Feed(p, ss, segments[0]);
      if o.status.Accepted? then After(o.events, FeedAll(o.phase, o.session, segments[1..])) else o
  }

  function Join(segments: seq<seq<byte>>): seq<byte> {
    if segments == [] then [] else segments[0] + Join(segments[1..])
  }

  /** Every cut between segments, `base` bytes into the stream and further, is clean. */
  predicate CutsClean(ps: seq<Packet>, base: nat, segments: seq<seq<byte>>)
    requires AllWellFormed(ps)
    decreases |segments|
  {
    |segments| <= 1
    || (CleanAt(ps, base + |segments[0]|) && CutsClean(ps, base + |segments[0]|, segments[1..]))
  }

  ghost predicate Equivalent(a: Outcome, b: Outcome) {
    a.phase == b.phase && a.session == b.session && a.status == b.status && Items(a.events) == Items(b.events)
  }

  /** A clean cut can be undone. */
  lemma MergeFirst(p: Phase, ss: Session, a: seq<byte>, b: seq<byte>, rest: seq<seq<byte>>)
    requires ValidPhase(p)
    requires Feed(p, ss, a).status.Accepted? && CleanCut(Feed(p, ss, a).phase)
    ensures Equivalent(FeedAll(p, ss, [a, b] + rest), FeedAll(p, ss, [a + b] + rest))
  {
    hide Feed, Items, CleanCut;
    var o := Feed(p, ss, a);
    var o2, whole := Feed(o.phase, o.session, b), Feed(p, ss, a + b);
    CutTheorem(p, ss, a, b);
    assert ([a, b] + rest)[1..] == [b] + rest && ([b] + rest)[1..] == rest && ([a + b] + rest)[1..] == rest;
    if o2.status.Accepted? {
      var last := FeedAll(o2.phase, o2.session, rest);
      SameAsThen(whole, o, o2, last);
      AfterItems(o.events, After(o2.events, last));
    } else {
      AfterItems(o.events, o2);
    }
  }

  lemma JoinMerged(segments: seq<seq<byte>>)
    requires |segments| >= 2
    ensures Join([segments[0] + segments[1]] + segments[2..]) == Join(segments)
  {
    var merged := [segments[0] + segments[1]] + segments[2..];
    assert merged[1..] == segments[2..] && segments[1..][1..] == segments[2..];
    Assoc(segments[0], segments[1], Join(segments[2..]));
  }

  lemma CutsMerged(ps: seq<Packet>, segments: seq<seq<byte>>)
    requires AllWellFormed(ps) && |segments| >= 2
    ensures var merged := [segments[0] + segments[1]] + segments[2..];
      CutsClean(ps, 0, segments) <==> CleanAt(ps, |segments[0]|) && CutsClean(ps, 0, merged)
  {
    hide CleanAt, AllWellFormed;
    var merged := [segments[0] + segments[1]] + segments[2..];
    assert merged[1..] == segments[2..] && segments[1..][1..] == segments[2..];
  }

  lemma MergeCuts(ps: seq<Packet>, segments: seq<seq<byte>>)
    requires AllWellFormed(ps) && |segments| >= 2
    ensures var merged := [segments[0] + segments[1]] + segments[2..];
      && Join(merged) == Join(segments)
      && segments == [segments[0], segments[1]] + segments[2..]
      && (CutsClean(ps, 0, segments) <==> CleanAt(ps, |segments[0]|) && CutsClean(ps, 0, merged))
  {
    hide CleanAt, AllWellFormed;
    var merged := [segments[0] + segments[1]] + segments[2..];
    JoinMerged(segments);
    CutsMerged(ps, segments);
  }

  lemma OneSegment(p: Phase, ss: Session, s: seq<byte>)
    requires ValidPhase(p)
    ensures FeedAll(p, ss, [s]) == Feed(p, ss, s)
  {
    hide Feed;
    var o := Feed(p, ss, s);
    assert [s][1..] == [] && o.events + [] == o.events;
  }

  /** Segmentation does not matter: a stream of well-formed packets whose cuts are clean is
      received as if it had come in one piece. */
  lemma {:induction false} AnySegmentation(ps: seq<Packet>, ss: Session, segments: seq<seq<byte>>)
    requires AllWellFormed(ps) && segments != [] && Join(segments) == EncodeAll(ps) && CutsClean(ps, 0, segments)
    ensures var o := FeedAll(Header([]), ss, segments);
      && o.status == Accepted && o.phase == Header([])
      && o.session == SessionAfterAll(ss, ps) && Items(o.events) == AllReports(ss, ps)
    decreases |segments|
  {
    hide Feed, FeedAll, Items, CutsClean, CleanAt, AllWellFormed, EncodeAll;
    if |segments| == 1 {
      assert segments == [segments[0]] && Join([segments[0]]) == segments[0] by {
        assert segments[1..] == [] && segments[0] + [] == segments[0];
      }
      OneSegment(Header([]), ss, segments[0]);
      StreamFed(ps, ss);
    } else {
      var a, b, rest := segments[0], segments[1], segments[2..];
      MergeCuts(ps, segments);
      FirstPart(segments);
      PrefixFed(ps, ss, |a|);
      MergeFirst(Header([]), ss, a, b, rest);
      AnySegmentation(ps, ss, [a + b] + rest);
    }
  }

  lemma FirstPart(segments: seq<seq<byte>>)
    requires segments != []
    ensures |segments[0]| <= |Join(segments)| && Join(segments)[..|segments[0]|] == segments[0]
  {
  }
}
