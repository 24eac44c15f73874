/** What the MQTT client does with received bytes (libraries/mqtt_patched.c, lines 654 to
    933): handling one frame of a control packet, and a resumable parser that remembers how
    far it is between TCP segments. Class MqttClient shows that the source, which reads the
    buffered fixed header again for every segment, does just this. */
module MqttReceive {
  import opened Bytes
  import opened MqttMessages
  import opened MqttDeadlines

  /** Size of the receive buffer, which bounds a frame together with its fixed header. */
  const BUFFER_LEN := 256

  datatype ConnState = TcpDisconnected | TcpConnecting | MqttConnecting | MqttConnected

  /** Outcome of a frame or a segment. `Refused` carries a server's CONNACK code; `Overlong`
      stands for a length field of more than four bytes, whose shift the source does not
      define. */
  datatype Status = Accepted | Disconnected | Refused(code: byte) | Overlong

  datatype Event =
    | ConnectionUp
    | Announce(topic: seq<byte>, total: nat)
    | Data(payload: seq<byte>, last: bool)
    | Respond(msgType: nat, pktId: u16, qos: nat)
    | Completed(cb: nat, ok: bool)
    | TimedOut(cb: nat)
    | ConnectionDown

  /** The part of the client that received packets read and change. */
  datatype Session = Session(conn: ConnState, cyclicTick: u16, inpubPktId: u16, pending: seq<Pending>)

  datatype Handled = Handled(session: Session, events: seq<Event>, status: Status)

  function CompletedEvents(cb: Callback, ok: bool): seq<Event> {
    if cb.Some? then [Completed(cb.value, ok)] else []
  }

  function HandleConnack(ss: Session, body: seq<byte>): Handled {
    if !ss.conn.MqttConnecting? then Handled(ss, [], Accepted)
    else if |body| < 2 then Handled(ss, [], Disconnected)
    else if body[1] != 0 then Handled(ss, [], Refused(body[1]))
    else Handled(ss.(conn := MqttConnected, cyclicTick := 0), [ConnectionUp], Accepted)
  }

  /** Payload bytes of a PUBLISH frame, and the acknowledgement after the last of them. */
  function PayloadEvents(qos: nat, pktId: u16, payload: seq<byte>, rest: nat): seq<Event> {
    if payload == [] && rest > 0 then []
    else
      [Data(payload, rest == 0)]
      + if rest == 0 && qos > 0 then [Respond(if qos == 1 then PUBACK else PUBREC, pktId, 0)] else []
  }

  /** First frame of a PUBLISH: topic and packet identifier must be in it, and must fit the
      receive buffer with one byte to spare (or the identifier). */
  function HandlePublishStart(ss: Session, qos: nat, hdrLen: nat, body: seq<byte>, rest: nat): Handled
    requires hdrLen <= BUFFER_LEN
  {
    var room := BUFFER_LEN - hdrLen;
    var idLen := if qos > 0 then 2 else 0;
    if |body| < 2 + idLen then Handled(ss, [], Disconnected)
    else
      var topicLen := FromU16(body[0], body[1]);
      if topicLen > |body| - (2 + idLen) || topicLen > room - (2 + idLen) then Handled(ss, [], Disconnected)
      else if 2 + topicLen + (if qos > 0 then 2 else 1) > room then Handled(ss, [], Disconnected)
      else
        var pktId := if qos > 0 then FromU16(body[2 + topicLen], body[3 + topicLen]) else 0;
        var payload := body[2 + topicLen + idLen..];
        Handled(ss.(inpubPktId := pktId),
                [Announce(body[2..2 + topicLen], rest + |payload|)] + PayloadEvents(qos, pktId, payload, rest),
                Accepted)
  }

  /** A reply takes the request it answers out of the queue and calls back. */
  function HandleReply(ss: Session, msgType: nat, pktId: u16, body: seq<byte>): Handled {
    var i := Find(ss.pending, pktId);
    if i == |ss.pending| then Handled(ss, [], Accepted)
    else
      var taken := ss.(pending := Without(ss.pending, i));
      if msgType == SUBACK && |body| < 3 then Handled(taken, [], Disconnected)
      else Handled(taken, CompletedEvents(ss.pending[i].cb, msgType == SUBACK ==> body[2] < 3), Accepted)
  }

  function HandleNumbered(ss: Session, msgType: nat, body: seq<byte>): Handled {
    if |body| < 2 then Handled(ss, [], Disconnected)
    else
      var pktId := FromU16(body[0], body[1]);
      if pktId == 0 then Handled(ss, [], Disconnected)
      else if msgType == PUBREC then Handled(ss, [Respond(PUBREL, pktId, 1)], Accepted)
      else if msgType == PUBREL then Handled(ss, [Respond(PUBCOMP, pktId, 0)], Accepted)
      else if msgType == SUBACK || msgType == UNSUBACK || msgType == PUBCOMP || msgType == PUBACK then
        HandleReply(ss, msgType, pktId, body)
      else Handled(ss, [], Disconnected)
  }

  /** One frame: a whole packet, or as much of it as a segment and the buffer allow. `first`
      tells the first frame of a packet, `rest` how many of its bytes are still to come. */
  function Handle(ss: Session, control: byte, hdrLen: nat, first: bool, body: seq<byte>, rest: nat): Handled
    requires hdrLen <= BUFFER_LEN
  {
    var msgType, qos := PacketType(control), PacketQos(control);
    if msgType == CONNACK then HandleConnack(ss, body)
    else if msgType == PINGRESP then Handled(ss, [], Accepted)
    else if msgType == PUBLISH then
      if first then HandlePublishStart(ss, qos, hdrLen, body, rest)
      else Handled(ss, PayloadEvents(qos, ss.inpubPktId, body, rest), Accepted)
    else HandleNumbered(ss, msgType, body)
  }

  /** Where the parser is: inside a fixed header, or `got` bytes into a packet's body. */
  datatype Phase = Header(h: seq<byte>) | Body(h: seq<byte>, got: nat)

  ghost predicate Continues(h: seq<byte>) {
    forall k :: 1 <= k < |h| ==> h[k] >= 128
  }

  /** A whole fixed header: a control byte and a length field of at most four bytes. */
  ghost predicate Whole(h: seq<byte>) {
    2 <= |h| <= 5 && Continues(h[..|h| - 1]) && h[|h| - 1] < 128
  }

  function BodyLen(h: seq<byte>): nat
    requires h != []
  {
    VarLenValue(h[1..])
  }

  ghost predicate ValidPhase(p: Phase) {
    match p
    case Header(h) => |h| <= 4 && Continues(h)
    case Body(h, got) => Whole(h) && got < BodyLen(h)
  }

  function Min(a: nat, b: nat): nat {
    if a <= b then a else b
  }

  /** Bytes of the next frame: what the segment has, the packet wants and the buffer holds. */
  function FrameLen(available: nat, wanted: nat, hdrLen: nat): nat
    requires hdrLen <= BUFFER_LEN
  {
    Min(Min(available, wanted), BUFFER_LEN - hdrLen)
  }

  /** One round of the parser: a header byte or a frame. */
  datatype Round = Round(used: nat, phase: Phase, session: Session, events: seq<Event>, status: Status)

  function HeaderRound(h: seq<byte>, ss: Session, b: byte): (r: Round)
    requires ValidPhase(Header(h))
    ensures r.used == 1
    ensures r.status.Accepted? ==> ValidPhase(r.phase)
  {
    var h' := h + [b];
    if h == [] then Round(1, Header(h'), ss, [], Accepted)
    else if b >= 128 then
      Round(1, Header(h'), ss, [], if |h'| == 5 then Overlong else Accepted)
    else
      assert h'[..|h'| - 1] == h;
      if BodyLen(h') == 0 then
        // The source ignores what the handler returns for a packet without a body.
        var r := Handle(ss, h'[0], |h'|, true, [], 0);
        Round(1, Header([]), r.session, r.events, Accepted)
      else
        Round(1, Body(h', 0), ss, [], Accepted)
  }

  function BodyRound(h: seq<byte>, got: nat, ss: Session, s: seq<byte>): (r: Round)
    requires ValidPhase(Body(h, got)) && s != []
    ensures 1 <= r.used <= |s|
    ensures r.status.Accepted? ==> ValidPhase(r.phase)
  {
    var rest := BodyLen(h) - got;
    var n := FrameLen(|s|, rest, |h|);
    var r := Handle(ss, h[0], |h|, got == 0, s[..n], rest - n);
    Round(n, if n == rest && r.status.Accepted? then Header([]) else Body(h, got + n), r.session, r.events, r.status)
  }

  function NextRound(p: Phase, ss: Session, s: seq<byte>): (r: Round)
    requires ValidPhase(p) && s != []
    ensures 1 <= r.used <= |s|
    ensures r.status.Accepted? ==> ValidPhase(r.phase)
  {
    match p
    case Header(h) => HeaderRound(h, ss, s[0])
    case Body(h, got) => BodyRound(h, got, ss, s)
  }

  datatype Outcome = Outcome(phase: Phase, session: Session, events: seq<Event>, status: Status)

  function After(events: seq<Event>, o: Outcome): Outcome {
    o.(events := events + o.events)
  }

  /** The parser on one segment. */
  function Feed(p: Phase, ss: Session, s: seq<byte>): (o: Outcome)
    requires ValidPhase(p)
    ensures o.status.Accepted? ==> ValidPhase(o.phase)
    decreases |s|
  {
    if s == [] then Outcome(p, ss, [], Accepted)
    else
      var r := NextRound(p, ss, s);
      if r.status.Accepted? then After(r.events, Feed(r.phase, r.session, s[r.used..]))
      else Outcome(r.phase, r.session, r.events, r.status)
  }

  lemma FeedNothing(p: Phase, ss: Session)
    requires ValidPhase(p)
    ensures Feed(p, ss, []) == Outcome(p, ss, [], Accepted)
  {
  }

  lemma AfterAfter(x: seq<Event>, y: seq<Event>, o: Outcome)
    ensures After(x, After(y, o)) == After(x + y, o)
    ensures After([], o) == o
  {
    Assoc(x, y, o.events);
    assert [] + o.events == o.events;
  }

  predicate Up(conn: ConnState) {
    conn.MqttConnecting? || conn.MqttConnected?
  }

  /** Received bytes never end the connection by themselves; only the caller's close does. */
  lemma {:induction false} FeedStaysUp(p: Phase, ss: Session, s: seq<byte>)
    requires ValidPhase(p)
    ensures Up(Feed(p, ss, s).session.conn) == Up(ss.conn)
    decreases |s|
  {
    hide NextRound;
    if s != [] {
      var r := NextRound(p, ss, s);
      RoundStaysUp(p, ss, s);
      if r.status.Accepted? {
        FeedStaysUp(r.phase, r.session, s[r.used..]);
      }
    }
  }

  lemma RoundStaysUp(p: Phase, ss: Session, s: seq<byte>)
    requires ValidPhase(p) && s != []
    ensures Up(NextRound(p, ss, s).session.conn) == Up(ss.conn)
  {
    hide BodyLen, Handle;
    match p {
      case Header(h) =>
        HandleStaysUp(ss, (h + [s[0]])[0], |h| + 1, true, [], 0);
      case Body(h, got) =>
        var n := FrameLen(|s|, BodyLen(h) - got, |h|);
        HandleStaysUp(ss, h[0], |h|, got == 0, s[..n], BodyLen(h) - got - n);
    }
  }

  lemma HandleStaysUp(ss: Session, control: byte, hdrLen: nat, first: bool, body: seq<byte>, rest: nat)
    requires hdrLen <= BUFFER_LEN
    ensures Up(Handle(ss, control, hdrLen, first, body, rest).session.conn) == Up(ss.conn)
  {
    hide PayloadEvents;
  }

  /** Replies and CONNACKs call for no acknowledgement. */
  lemma ReplyUnanswered(ss: Session, msgType: nat, pktId: u16, body: seq<byte>)
    ensures forall i :: 0 <= i < |HandleReply(ss, msgType, pktId, body).events| ==>
      !HandleReply(ss, msgType, pktId, body).events[i].Respond?
  {
  }

  lemma ConnackUnanswered(ss: Session, body: seq<byte>)
    ensures forall i :: 0 <= i < |HandleConnack(ss, body).events| ==> !HandleConnack(ss, body).events[i].Respond?
  {
  }

  /** Received bytes only take requests away; deadlines stay as they are. */
  ghost predicate OnlyFewer(q: seq<Pending>, q': seq<Pending>) {
    forall e :: e in q' ==> e in q
  }

  lemma {:induction false} FeedFewer(p: Phase, ss: Session, s: seq<byte>)
    requires ValidPhase(p)
    ensures OnlyFewer(ss.pending, Feed(p, ss, s).session.pending)
    decreases |s|
  {
    hide NextRound;
    if s != [] {
      var r := NextRound(p, ss, s);
      RoundFewer(p, ss, s);
      if r.status.Accepted? {
        FeedFewer(r.phase, r.session, s[r.used..]);
      }
    }
  }

  lemma RoundFewer(p: Phase, ss: Session, s: seq<byte>)
    requires ValidPhase(p) && s != []
    ensures OnlyFewer(ss.pending, NextRound(p, ss, s).session.pending)
  {
    hide BodyLen, Handle;
    match p {
      case Header(h) =>
        HandleFewer(ss, (h + [s[0]])[0], |h| + 1, true, [], 0);
      case Body(h, got) =>
        var n := FrameLen(|s|, BodyLen(h) - got, |h|);
        HandleFewer(ss, h[0], |h|, got == 0, s[..n], BodyLen(h) - got - n);
    }
  }

  lemma HandleFewer(ss: Session, control: byte, hdrLen: nat, first: bool, body: seq<byte>, rest: nat)
    requires hdrLen <= BUFFER_LEN
    ensures OnlyFewer(ss.pending, Handle(ss, control, hdrLen, first, body, rest).session.pending)
  {
    hide PayloadEvents, HandlePublishStart, HandleConnack, Take;
    forall id: u16 ensures OnlyFewer(ss.pending, Take(ss.pending, id)) {
      TakeFewer(ss.pending, id);
    }
    HandleOthers(ss, PacketQos(control), hdrLen, body, rest);
  }

  lemma HandleOthers(ss: Session, qos: nat, hdrLen: nat, body: seq<byte>, rest: nat)
    requires hdrLen <= BUFFER_LEN
    ensures HandleConnack(ss, body).session.pending == ss.pending
    ensures HandlePublishStart(ss, qos, hdrLen, body, rest).session.pending == ss.pending
  {
  }

  lemma TakeFewer(q: seq<Pending>, id: u16)
    ensures OnlyFewer(q, Take(q, id))
  {
  }

  /** Received bytes time nothing out. */
  ghost predicate NoTimeouts(es: seq<Event>) {
    forall i :: 0 <= i < |es| ==> !es[i].TimedOut?
  }

  lemma {:induction false} FeedNoTimeouts(p: Phase, ss: Session, s: seq<byte>)
    requires ValidPhase(p)
    ensures NoTimeouts(Feed(p, ss, s).events)
    decreases |s|
  {
    hide NextRound;
    if s != [] {
      var r := NextRound(p, ss, s);
      RoundNoTimeouts(p, ss, s);
      if r.status.Accepted? {
        FeedNoTimeouts(r.phase, r.session, s[r.used..]);
      }
    }
  }

  lemma RoundNoTimeouts(p: Phase, ss: Session, s: seq<byte>)
    requires ValidPhase(p) && s != []
    ensures NoTimeouts(NextRound(p, ss, s).events)
  {
    hide BodyLen, Handle;
    match p {
      case Header(h) =>
        HandleNoTimeouts(ss, (h + [s[0]])[0], |h| + 1, true, [], 0);
      case Body(h, got) =>
        var n := FrameLen(|s|, BodyLen(h) - got, |h|);
        HandleNoTimeouts(ss, h[0], |h|, got == 0, s[..n], BodyLen(h) - got - n);
    }
  }

  lemma HandleNoTimeouts(ss: Session, control: byte, hdrLen: nat, first: bool, body: seq<byte>, rest: nat)
    requires hdrLen <= BUFFER_LEN
    ensures NoTimeouts(Handle(ss, control, hdrLen, first, body, rest).events)
  {
  }
}
