/** The MQTT client: its connection states, its output ring and request pool, and every
    callback and call that changes them (libraries/mqtt_patched.c, lines 541 to 1469). The
    ghost fields record the history that the invariant speaks about. */
module MqttClient {
  import opened Bytes
  import opened MqttRing
  import opened MqttMessages
  import opened MqttDeadlines
  import opened MqttRequests
  import opened MqttReceive
  import opened MqttAccounts
  import opened MqttCalls
  import opened MqttOutput
  import opened MqttMachine

  /** 128 to the k: the weight of the k-th remaining-length byte. */
  function Pow128(k: nat): nat {
    if k == 0 then 1 else 128 * Pow128(k - 1)
  }

  /** Remaining length read from the first `k` bytes of a fixed header. */
  function Partial(h: seq<byte>, k: nat): nat
    requires k <= |h|
  {
    if k <= 1 then 0 else VarLenValue(h[1..k])
  }

  /** The length so far with one more length byte, the `fhl`-th of the header, put above it.
      The source shifts the byte into place and ORs; no bits overlap (PartialSnoc). */
  function AddLength(remLen: nat, b: byte, fhl: nat): nat {
    if fhl < 2 then remLen else remLen + (b % 128) * Pow128(fhl - 2)
  }

  lemma {:induction false} VarLenValueSnoc(bs: seq<byte>, b: byte)
    ensures VarLenValue(bs + [b]) == VarLenValue(bs) + (b % 128) * Pow128(|bs|)
    ensures VarLenValue(bs) < Pow128(|bs|)
    decreases |bs|
  {
    if bs == [] {
      assert [] + [b] == [b] && [b][1..] == [];
    } else {
      assert (bs + [b])[1..] == bs[1..] + [b];
      VarLenValueSnoc(bs[1..], b);
      assert 128 * ((b % 128) * Pow128(|bs| - 1)) == (b % 128) * Pow128(|bs|);
    }
  }

  lemma PartialSnoc(h: seq<byte>, k: nat)
    requires k < |h|
    ensures Partial(h, k + 1) == AddLength(Partial(h, k), h[k], k + 1)
    ensures k >= 1 ==> Partial(h, k) < Pow128(k - 1)
  {
    if k >= 1 {
      assert h[1..k + 1] == h[1..k] + [h[k]];
      VarLenValueSnoc(h[1..k], h[k]);
    }
  }

  /** A header with one more byte. */
  lemma HeaderGrown(h: seq<byte>, b: byte)
    requires ValidPhase(Header(h))
    ensures Partial(h + [b], |h| + 1) == AddLength(Partial(h, |h|), b, |h| + 1)
    ensures h != [] && b < 128 ==> Whole(h + [b]) && BodyLen(h + [b]) == Partial(h + [b], |h| + 1)
    ensures |h| < 4 && (h == [] || b >= 128) ==> ValidPhase(Header(h + [b]))
  {
    var h' := h + [b];
    PartialSnoc(h', |h|);
    assert h'[..|h|] == h && h'[1..|h'|] == h'[1..];
    assert |h| >= 1 ==> h'[1..|h|] == h[1..|h|];
  }

  /** The source's test for a complete fixed header is right. */
  lemma HeaderDone(p: Phase, fhl: nat, b: byte)
    requires ValidPhase(p) && fhl <= |p.h| && (fhl > 0 ==> b == p.h[fhl - 1])
    ensures fhl >= 2 && b < 128 <==> p.Body? && fhl == |p.h|
  {
    if p.Body? && 2 <= fhl < |p.h| {
      assert p.h[..|p.h| - 1][fhl - 1] == b;
    }
  }

  /** What is left to show about a segment, one round further on. */
  lemma RoundDone(all: Outcome, es: seq<Event>, p: Phase, ss: Session, s: seq<byte>)
    requires ValidPhase(p) && s != [] && all == After(es, Feed(p, ss, s))
    ensures var r := NextRound(p, ss, s);
      all == if r.status.Accepted? then After(es + r.events, Feed(r.phase, r.session, s[r.used..]))
             else Outcome(r.phase, r.session, es + r.events, r.status)
  {
    hide NextRound;
    var r := NextRound(p, ss, s);
    if r.status.Accepted? {
      Assoc(es, r.events, Feed(r.phase, r.session, s[r.used..]).events);
    }
  }

  lemma TopicFits(topic: seq<byte>, payloadLength: u16, qos: nat)
    requires PublishLength(topic, payloadLength, qos) < 0x1_0000
    ensures |topic| < 0x1_0000
  {
  }

  lemma ConnectFits(info: ConnectInfo)
    requires LengthsOk(info)
    ensures ConnectLength(info) < 0x1_0000
  {
  }

  class Client {
    const output: RingBuffer
    const pool: RequestPool
    const rx: array<byte>
    var msgIdx: nat
    var conn: ConnState
    var hasPcb: bool
    var cyclicTick: u16
    var serverWatchdog: u16
    var keepAlive: u16
    var pktIdSeq: u16
    var inpubPktId: u16
    var timer: bool

    /** Where the parser is between two segments. */
    ghost var phase: Phase
    /** Calls to the application. */
    ghost var events: seq<Event>
    /** The output stream since the connection was opened. */
    ghost var log: Output
    /** Callbacks of requests accepted, and of requests given up without a call. */
    ghost var accepted: multiset<nat>
    ghost var dropped: multiset<nat>

    constructor ()
      ensures Valid() && conn == TcpDisconnected && output.Contents() == [] && log == NO_OUTPUT
      ensures events == [] && accepted == dropped == multiset{}
      ensures fresh(output) && fresh(output.buf) && fresh(pool) && fresh(pool.slots) && fresh(rx)
    {
      hide RingBuffer.Valid, RingBuffer.Contents, RequestPool.Valid, RequestPool.Queue, RequestPool.Settled,
           Callbacks, Called, Balanced, Parsing;
      output := new RingBuffer();
      pool := new RequestPool();
      rx := new byte[BUFFER_LEN](_ => 0);
      msgIdx, conn, hasPcb, cyclicTick, serverWatchdog := 0, TcpDisconnected, false, 0, 0;
      keepAlive, pktIdSeq, inpubPktId, timer := 0, 0, 0, false;
      phase, events, log := Header([]), [], NO_OUTPUT;
      accepted, dropped := multiset{}, multiset{};
      new;
      NothingAccepted();
    }

    lemma NothingAccepted()
      ensures Balanced(multiset{}, [], [], multiset{})
    {
    }

    ghost predicate Shape()
      reads output, pool, pool.slots
    {
      output.Valid() && pool.Valid() && rx.Length == BUFFER_LEN && output.buf != rx
    }

    /** Output stream conservation: what TCP has taken, followed by what is in the ring, is
        what was put there; or else a message has filled the ring and bytes are gone. */
    ghost predicate OutputKept()
      requires output.Valid()
      reads this`log, output, output.buf
    {
      && log.held == |output.Contents()|
      && if log.kept then log.wire + output.Contents() == log.queued
         else |log.wire| + |output.Contents()| < |log.queued|
    }

    ghost function Session(): Session
      requires pool.Valid()
      reads this`conn, this`cyclicTick, this`inpubPktId, pool, pool.slots
    {
      MqttReceive.Session.Session(conn, cyclicTick, inpubPktId, pool.Queue())
    }

    /** State and history, as the machine has them. */
    ghost function Now(): View
      requires pool.Valid()
      reads this`conn, this`cyclicTick, this`inpubPktId, this`phase, this`log, this`events, this`accepted, this`dropped
      reads this`keepAlive, this`serverWatchdog, this`pktIdSeq, pool, pool.slots
    {
      View(Session(), phase, log, events, accepted, dropped, keepAlive, serverWatchdog, pktIdSeq)
    }

    /** Offers the ring's contents to TCP, whatever TCP makes of it. */
    method Send()
      requires output.Valid() && OutputKept()
      modifies this`log, output`get
      ensures output.Valid() && OutputKept()
      ensures Sends(old(log), log)
    {
      var sndbuf: u16, ok: bool, sndbuf2: u16, ok2: bool := *, *, *, *;
      var taken := output.OutputSend(sndbuf, ok, sndbuf2, ok2);
      Assoc(log.wire, taken, output.Contents());
      log := log.(wire := log.wire + taken, held := |output.Contents()|);
    }

    /** Books a message that has been put into the ring, which held `c` before. */
    ghost method Book(c: seq<byte>, msg: seq<byte>)
      requires output.Valid() && |c| < RING_SIZE && output.Contents() == PutAll(c, msg)
      requires log.held == |c|
      requires if log.kept then log.wire + c == log.queued else |log.wire| + |c| < |log.queued|
      modifies this`log
      ensures OutputKept() && log == Put(old(log), msg)
    {
      PutAllKeepsIff(c, msg);
      PutAllLength(c, msg);
      PutAllHeld(c, msg);
      Assoc(log.wire, c, msg);
      log := Put(log, msg);
    }

    /** Queues an acknowledgement if it fits, and sends. */
    method Respond(msgType: nat, pktId: u16, qos: nat)
      requires output.Valid() && OutputKept()
      modifies this`log, this`events, output, output.buf
      ensures output.Valid() && OutputKept()
      ensures events == old(events) + [Event.Respond(msgType, pktId, qos)]
      ensures if GrantAt(old(log.held)).Denied? then log == Acked(old(log), msgType, pktId, qos)
              else Sends(Acked(old(log), msgType, pktId, qos), log)
      ensures Answered(old(log), log, [Event.Respond(msgType, pktId, qos)])
    {
      hide RingBuffer.Valid, RingBuffer.Contents, Ack, Answered;
      events := events + [Event.Respond(msgType, pktId, qos)];
      var fits := CheckSpace(output, 2);
      AckAdmitted(log.held);
      if fits {
        QueueAck(msgType, pktId, qos);
        Send();
      } else {
        log := log.(grants := log.grants + [Denied]);
      }
      AnsweredOne(old(log), log, msgType, pktId, qos);
    }

    method QueueAck(msgType: nat, pktId: u16, qos: nat)
      requires output.Valid() && OutputKept() && !GrantAt(log.held).Denied?
      modifies this`log, output`put, output.buf
      ensures output.Valid() && OutputKept() && log == Acked(old(log), msgType, pktId, qos)
    {
      hide RingBuffer.Valid, RingBuffer.Contents, FixedHeader;
      ghost var c, was := output.Contents(), log;
      ghost var header := FixedHeader(msgType, 0, qos, 0, 2);
      AppendFixedHeader(output, msgType, 0, qos, 0, 2);
      AppendU16(output, pktId);
      PutAllConcat(c, header, U16(pktId));
      Book(c, Ack(msgType, pktId, qos));
      log := log.(grants := log.grants + [GrantAt(was.held)]);
    }

    method OnConnack(body: seq<byte>) returns (status: Status)
      requires pool.Valid()
      modifies this`conn, this`cyclicTick, this`events
      ensures pool.Valid()
      ensures var h := HandleConnack(old(Session()), body);
        status == h.status && Session() == h.session && events == old(events) + h.events
    {
      hide RequestPool.Valid, RequestPool.Queue;
      status := Accepted;
      if conn == MqttConnecting {
        if |body| < 2 {
          return Disconnected;
        }
        if body[1] != 0 {
          return Refused(body[1]);
        }
        cyclicTick := 0;
        conn := MqttConnected;
        events := events + [ConnectionUp];
      }
    }

    /** Hands payload to the application and acknowledges the message after its last byte. */
    method OnPayload(qos: nat, payload: seq<byte>, rest: nat)
      requires output.Valid() && OutputKept()
      modifies this`log, this`events, output, output.buf
      ensures output.Valid() && OutputKept()
      ensures events == old(events) + PayloadEvents(qos, inpubPktId, payload, rest)
      ensures Answered(old(log), log, PayloadEvents(qos, inpubPktId, payload, rest))
    {
      hide RingBuffer.Valid, RingBuffer.Contents, Answered, Acked, Sends;
      AnsweredNone(log, [Data(payload, rest == 0)]);
      AnsweredNone(log, []);
      assert [Data(payload, rest == 0)] + [] == [Data(payload, rest == 0)];
      if |payload| > 0 || rest == 0 {
        events := events + [Data(payload, rest == 0)];
        if rest == 0 && qos > 0 {
          ghost var was, ack := log, Event.Respond(if qos == 1 then PUBACK else PUBREC, inpubPktId, 0);
          Respond(if qos == 1 then PUBACK else PUBREC, inpubPktId, 0);
          AnsweredThen(was, was, log, [Data(payload, rest == 0)], [ack]);
        }
      }
    }

    method OnPublishStart(qos: nat, hdrLen: nat, body: seq<byte>, rest: nat) returns (status: Status)
      requires hdrLen <= 5 && |body| <= BUFFER_LEN - hdrLen
      requires output.Valid() && OutputKept() && pool.Valid()
      modifies this`log, this`events, this`inpubPktId, output, output.buf
      ensures output.Valid() && OutputKept() && pool.Valid()
      ensures var h := HandlePublishStart(old(Session()), qos, hdrLen, body, rest);
        status == h.status && Session() == h.session && events == old(events) + h.events && Answered(old(log), log, h.events)
    {
      hide RingBuffer.Valid, RingBuffer.Contents, RequestPool.Valid, RequestPool.Queue, PayloadEvents, Answered;
      AnsweredNone(log, []);
      var bufsize := BUFFER_LEN - hdrLen;
      var qosLen := if qos > 0 then 2 else 0;
      if |body| < 2 + qosLen {
        return Disconnected;
      }
      var topicLen := FromU16(body[0], body[1]);
      if topicLen > |body| - (2 + qosLen) || topicLen > bufsize - (2 + qosLen) {
        return Disconnected;
      }
      var afterTopic := 2 + topicLen;
      if afterTopic + (if qos > 0 then 2 else 1) > bufsize {
        return Disconnected;
      }
      if qos > 0 {
        inpubPktId := FromU16(body[afterTopic], body[afterTopic + 1]);
        afterTopic := afterTopic + 2;
      } else {
        inpubPktId := 0;
      }
      var payload := body[afterTopic..];
      ghost var before, announce := events, Announce(body[2..2 + topicLen], rest + |payload|);
      events := events + [announce];
      AnsweredNone(log, [announce]);
      OnPayload(qos, payload, rest);
      AnsweredThen(old(log), old(log), log, [announce], PayloadEvents(qos, inpubPktId, payload, rest));
      Assoc(before, [announce], PayloadEvents(qos, inpubPktId, payload, rest));
      status := Accepted;
    }

    /** A reply takes the request it answers out of the queue and calls back. */
    method OnReply(msgType: nat, pktId: u16, body: seq<byte>) returns (status: Status)
      requires pool.Valid() && |body| >= 2
      modifies this`events, pool, pool.slots
      ensures pool.Valid()
      ensures var h := HandleReply(old(Session()), msgType, pktId, body);
        status == h.status && Session() == h.session && events == old(events) + h.events
      ensures status.Accepted? && old(pool.Settled()) ==> pool.Settled()
    {
      var r := pool.Take(pktId);
      if r != NIL {
        if msgType == SUBACK && |body| < 3 {
          return Disconnected;
        }
        var cb := pool.slots[r].cb;
        if cb.Some? {
          events := events + [Completed(cb.value, msgType == SUBACK ==> body[2] < 3)];
        }
        pool.Delete(r);
      }
      status := Accepted;
    }

    method OnNumbered(msgType: nat, body: seq<byte>) returns (status: Status)
      requires output.Valid() && OutputKept() && pool.Valid()
      modifies this`log, this`events, output, output.buf, pool, pool.slots
      ensures output.Valid() && OutputKept() && pool.Valid()
      ensures var h := HandleNumbered(old(Session()), msgType, body);
        status == h.status && Session() == h.session && events == old(events) + h.events
      ensures (status.Accepted? || body == []) && old(pool.Settled()) ==> pool.Settled()
      ensures Answered(old(log), log, HandleNumbered(old(Session()), msgType, body).events)
    {
      hide RingBuffer.Valid, RingBuffer.Contents, RequestPool.Valid, RequestPool.Queue, RequestPool.Settled, HandleReply;
      hide Answered, Acked, Sends;
      AnsweredNone(log, []);
      status := Accepted;
      if |body| < 2 {
        return Disconnected;
      }
      var pktId := FromU16(body[0], body[1]);
      if pktId == 0 {
        return Disconnected;
      }
      if msgType == PUBREC {
        Respond(PUBREL, pktId, 1);
      } else if msgType == PUBREL {
        Respond(PUBCOMP, pktId, 0);
      } else if msgType == SUBACK || msgType == UNSUBACK || msgType == PUBCOMP || msgType == PUBACK {
        ReplyUnanswered(Session(), msgType, pktId, body);
        AnsweredNone(log, HandleReply(Session(), msgType, pktId, body).events);
        status := OnReply(msgType, pktId, body);
      } else {
        status := Disconnected;
      }
    }

    /** One frame, of which the first is told by how much has been received. */
    method MessageReceived(fixedHdrLen: nat, body: seq<byte>, rest: nat) returns (status: Status)
      requires Shape() && OutputKept() && fixedHdrLen <= 5 && |body| <= BUFFER_LEN - fixedHdrLen
      modifies this`log, this`events, this`inpubPktId, this`conn, this`cyclicTick
      modifies output, output.buf, pool, pool.slots
      ensures Shape() && OutputKept()
      ensures var h := Handle(old(Session()), old(rx[0]), fixedHdrLen, msgIdx == fixedHdrLen + |body|, body, rest);
        status == h.status && Session() == h.session && events == old(events) + h.events && Answered(old(log), log, h.events)
      ensures (status.Accepted? || body == []) && old(pool.Settled()) ==> pool.Settled()
    {
      hide RingBuffer.Valid, RingBuffer.Contents, RequestPool.Valid, RequestPool.Queue, RequestPool.Settled,
           HandleConnack, HandlePublishStart, PayloadEvents, HandleNumbered, Answered;
      ConnackUnanswered(Session(), body);
      AnsweredNone(log, HandleConnack(Session(), body).events);
      AnsweredNone(log, []);
      var msgType, qos := PacketType(rx[0]), PacketQos(rx[0]);
      status := Accepted;
      if msgType == CONNACK {
        status := OnConnack(body);
      } else if msgType == PINGRESP {
      } else if msgType == PUBLISH {
        if msgIdx == fixedHdrLen + |body| {
          status := OnPublishStart(qos, fixedHdrLen, body, rest);
        } else {
          OnPayload(qos, body, rest);
        }
      } else {
        status := OnNumbered(msgType, body);
      }
    }

    /** The buffered bytes agree with the parser's place in the stream. */
    ghost predicate Parsing()
      requires rx.Length == BUFFER_LEN
      reads this`phase, this`msgIdx, rx
    {
      ValidPhase(phase) && rx[..|phase.h|] == phase.h && msgIdx == |phase.h| + if phase.Body? then phase.got else 0
    }

    /** `fhl` bytes of the header have been read in this segment, `b` last, and `remLen` is
        the remaining length as far as they tell. */
    ghost predicate Reading(fhl: nat, remLen: nat, b: byte)
      requires ValidPhase(phase)
      reads this`phase
    {
      && fhl <= |phase.h| && (fhl > 0 ==> b == phase.h[fhl - 1])
      && remLen == if phase.Body? && fhl == |phase.h| then BodyLen(phase.h) - phase.got else Partial(phase.h, fhl)
    }

    lemma ReadingStart()
      requires ValidPhase(phase)
      ensures Reading(0, 0, 0)
    {
    }

    /** A header byte that came with an earlier segment and is read again. */
    method ReadAgain(fhl: nat, remLen: nat, ghost b0: byte) returns (remLen': nat, b: byte)
      requires Shape() && Parsing() && Reading(fhl, remLen, b0) && fhl < |phase.h|
      ensures Reading(fhl + 1, remLen', b)
    {
      b := rx[fhl];
      assert b == rx[..|phase.h|][fhl];
      PartialSnoc(phase.h, fhl);
      remLen' := AddLength(remLen, b, fhl + 1);
      if fhl >= 1 && b < 128 {
        assert phase.Body? && fhl + 1 == |phase.h| && phase.h[1..fhl + 1] == phase.h[1..];
        remLen' := remLen' + fhl + 1 - msgIdx;
      }
    }

    /** The fixed header is complete: a packet without a body is handled at once, whatever
        the handler returns. */
    method FinishHeader(fhl: nat, remLen: nat, ghost h: seq<byte>) returns (fhl': nat, remLen': nat)
      requires Shape() && OutputKept() && pool.Settled()
      requires Whole(h) && rx[..|h|] == h && msgIdx == fhl == |h| && remLen == BodyLen(h)
      modifies this`log, this`events, this`inpubPktId, this`conn, this`cyclicTick
      modifies this`phase, this`msgIdx, output, output.buf, pool, pool.slots
      ensures Shape() && OutputKept()
      ensures var r := Handle(old(Session()), h[0], |h|, true, [], 0);
        if BodyLen(h) == 0 then
          phase == Header([]) && Session() == r.session && events == old(events) + r.events && Answered(old(log), log, r.events)
        else phase == Body(h, 0) && Session() == old(Session()) && events == old(events) && log == old(log)
      ensures pool.Settled() && Parsing() && Reading(fhl', remLen', h[|h| - 1])
    {
      hide RingBuffer.Valid, RingBuffer.Contents, RequestPool.Valid, RequestPool.Queue, RequestPool.Settled, Handle, BodyLen, Answered;
      assert rx[0] == h[0];
      if remLen == 0 {
        var ignored := MessageReceived(fhl, [], 0);
        msgIdx, fhl', remLen', phase := 0, 0, 0, Header([]);
      } else {
        fhl', remLen', phase := fhl, remLen + fhl - msgIdx, Body(h, 0);
      }
    }

    method KeepByte(b: byte)
      requires rx.Length == BUFFER_LEN && Parsing() && phase.Header?
      modifies this`msgIdx, rx
      ensures msgIdx == |phase.h| + 1 <= BUFFER_LEN && rx[..msgIdx] == phase.h + [b]
    {
      rx[msgIdx] := b;
      msgIdx := msgIdx + 1;
    }

    /** The next header byte of the segment, which is kept in case the segment ends. */
    method ReadNew(b: byte, fhl: nat, remLen: nat, ghost b0: byte)
      returns (status: Status, fhl': nat, remLen': nat)
      requires Shape() && OutputKept() && pool.Settled()
      requires Parsing() && Reading(fhl, remLen, b0) && phase.Header? && fhl == |phase.h|
      modifies this`log, this`events, this`inpubPktId, this`conn, this`cyclicTick
      modifies this`phase, this`msgIdx, rx, output, output.buf, pool, pool.slots
      ensures Shape() && OutputKept()
      ensures var r := HeaderRound(old(phase.h), old(Session()), b);
        && status == r.status && phase == r.phase && Session() == r.session && events == old(events) + r.events
        && Answered(old(log), log, r.events)
      ensures status.Accepted? ==> pool.Settled() && Parsing() && Reading(fhl', remLen', b)
    {
      hide RingBuffer.Valid, RingBuffer.Contents, RequestPool.Valid, RequestPool.Queue, RequestPool.Settled,
           Handle, BodyLen, Partial, AddLength, Answered, OutputKept, Whole;
      AnsweredNone(log, []);
      ghost var h := phase.h + [b];
      HeaderGrown(phase.h, b);
      status := Accepted;
      KeepByte(b);
      fhl' := fhl + 1;
      remLen' := AddLength(remLen, b, fhl');
      if fhl' >= 2 && b < 128 {
        fhl', remLen' := FinishHeader(fhl', remLen', h);
      } else {
        phase := Header(h);
        if fhl' == 5 {
          status := Overlong;
        }
      }
    }

    /** The next frame of the packet's body. */
    method ReadBody(p: seq<byte>, fhl: nat, remLen: nat, ghost b: byte)
      returns (status: Status, used: nat, fhl': nat, remLen': nat)
      requires Shape() && OutputKept() && pool.Settled() && p != []
      requires Parsing() && Reading(fhl, remLen, b) && phase.Body? && fhl == |phase.h|
      modifies this`log, this`events, this`inpubPktId, this`conn, this`cyclicTick
      modifies this`phase, this`msgIdx, output, output.buf, pool, pool.slots
      ensures Shape() && OutputKept()
      ensures var r := BodyRound(old(phase.h), old(phase.got), old(Session()), p);
        && status == r.status && used == r.used && phase == r.phase
        && Session() == r.session && events == old(events) + r.events && Answered(old(log), log, r.events)
      ensures status.Accepted? ==> pool.Settled() && Parsing() && Reading(fhl', remLen', b)
    {
      hide RingBuffer.Valid, RingBuffer.Contents, RequestPool.Valid, RequestPool.Queue, RequestPool.Settled, Handle, BodyLen,
           Answered;
      ghost var h, got := phase.h, phase.got;
      used := if |p| <= remLen then |p| else remLen;
      if used > BUFFER_LEN - fhl {
        used := BUFFER_LEN - fhl;
      }
      msgIdx := msgIdx + used;
      remLen' := remLen - used;
      assert rx[..|h|] == h && rx[0] == h[0];
      status := MessageReceived(fhl, p[..used], remLen');
      fhl' := fhl;
      phase := Body(h, got + used);
      if status.Accepted? && remLen' == 0 {
        msgIdx, fhl', phase := 0, 0, Header([]);
      }
    }

    /** One round of the loop: a header byte, read again or new, or a frame. `all` is what
        the segment comes to, `es` what has been reported of it. */
    method ParseStep(p: seq<byte>, off0: nat, fhl0: nat, remLen0: nat, b0: byte, ghost all: Outcome, ghost es0: seq<Event>)
      returns (status: Status, off: nat, fhl: nat, remLen: nat, b: byte, ghost es: seq<Event>)
      requires Shape() && OutputKept() && pool.Settled() && Parsing() && Reading(fhl0, remLen0, b0)
      requires off0 < |p| && all == After(es0, Feed(phase, Session(), p[off0..]))
      modifies this`log, this`events, this`inpubPktId, this`conn, this`cyclicTick
      modifies this`phase, this`msgIdx, rx, output, output.buf, pool, pool.slots
      ensures Shape() && OutputKept() && off0 <= off <= |p|
      ensures es0 <= es && events == old(events) + es[|es0|..] && Answered(old(log), log, es[|es0|..])
      ensures status.Accepted? ==>
        && pool.Settled() && Parsing() && Reading(fhl, remLen, b)
        && all == After(es, Feed(phase, Session(), p[off..]))
        && (off0 < off || |phase.h| - fhl < old(|phase.h|) - fhl0)
      ensures !status.Accepted? ==> all == Outcome(phase, Session(), es, status)
    {
      hide RingBuffer.Valid, RingBuffer.Contents, RequestPool.Valid, RequestPool.Queue, RequestPool.Settled,
           Feed, HeaderRound, BodyRound, Partial, BodyLen, Whole, Answered, OutputKept;
      AnsweredNone(log, []);
      status, off, es := Accepted, off0, es0;
      HeaderDone(phase, fhl0, b0);
      if fhl0 < 2 || b0 >= 128 {
        if fhl0 < msgIdx {
          remLen, b := ReadAgain(fhl0, remLen0, b0);
          fhl := fhl0 + 1;
        } else {
          b := p[off];
          RoundDone(all, es, phase, Session(), p[off..]);
          es := es + HeaderRound(phase.h, Session(), b).events;
          assert p[off..][1..] == p[off + 1..];
          off := off + 1;
          status, fhl, remLen := ReadNew(b, fhl0, remLen0, b0);
        }
      } else {
        RoundDone(all, es, phase, Session(), p[off..]);
        es := es + BodyRound(phase.h, phase.got, Session(), p[off..]).events;
        var used;
        status, used, fhl, remLen := ReadBody(p[off..], fhl0, remLen0, b0);
        b := b0;
        assert p[off..][used..] == p[off + used..];
        off := off + used;
      }
    }

    /** The parser on one TCP segment. It reads the fixed header again from the receive
        buffer for every segment; the outcome is that of the parser that does not. */
    method ParseIncoming(p: seq<byte>) returns (status: Status)
      requires Shape() && OutputKept() && pool.Settled() && Parsing() && |p| < 0x1_0000
      modifies this`log, this`events, this`inpubPktId, this`conn, this`cyclicTick
      modifies this`phase, this`msgIdx, rx, output, output.buf, pool, pool.slots
      ensures Shape() && OutputKept()
      ensures var o := Feed(old(phase), old(Session()), p);
        && status == o.status && phase == o.phase && Session() == o.session && events == old(events) + o.events
        && Answered(old(log), log, o.events)
      ensures status.Accepted? ==> pool.Settled() && Parsing()
    {
      hide RingBuffer.Valid, RingBuffer.Contents, RequestPool.Valid, RequestPool.Queue, RequestPool.Settled,
           Feed, HeaderRound, BodyRound, Partial, BodyLen, Whole, OutputKept, ValidPhase, Answered, Session, After;
      var off: nat, fhl: nat, remLen: nat, b: byte := 0, 0, 0, 0;
      ghost var all := Feed(phase, Session(), p);
      ghost var es: seq<Event> := [];
      assert p[0..] == p;
      AfterAfter([], [], all);
      ReadingStart();
      AnsweredNone(log, []);
      status := Accepted;
      while off < |p|
        invariant Shape() && OutputKept() && pool.Settled() && Parsing() && Reading(fhl, remLen, b)
        invariant off <= |p| && events == old(events) + es && Answered(old(log), log, es)
        invariant all == After(es, Feed(phase, Session(), p[off..])) && status == Accepted
        decreases |p| - off, |phase.h| - fhl
      {
        ghost var was, done := log, es;
        status, off, fhl, remLen, b, es := ParseStep(p, off, fhl, remLen, b, all, es);
        AnsweredOn(old(log), was, log, done, es);
        if !status.Accepted? {
          return;
        }
      }
      ParsedAll(all, es, phase, Session(), p[off..]);
    }

    lemma ParsedAll(all: Outcome, es: seq<Event>, x: Phase, s: Session, p: seq<byte>)
      requires ValidPhase(x) && p == [] && all == After(es, Feed(x, s, p))
      ensures all == Outcome(x, s, es, Accepted)
    {
      hide HeaderRound, BodyRound;
      FeedNothing(x, s);
      assert es + [] == es;
    }

    /** Every accepted callback has been called, given up, or is pending. */
    ghost predicate Accounted()
      requires pool.Valid()
      reads this`accepted, this`events, this`dropped, pool, pool.slots
    {
      Balanced(accepted, events, pool.Queue(), dropped)
    }

    /** What holds between any two events. */
    ghost predicate Valid()
      reads this, output, output.buf, pool, pool.slots, rx
    {
      && Shape() && OutputKept() && Accounted()
      && (hasPcb <==> !conn.TcpDisconnected?)
      && (timer <==> Up(conn))
      && (if conn.TcpDisconnected? then pool.Queue() == [] else pool.Settled())
      && (timer ==> Parsing())
    }

    /** History is only added to. */
    twostate predicate Grows()
      reads this
    {
      old(events) <= events && old(accepted) <= accepted && old(dropped) <= dropped
    }

    /** The ring's part of what holds between two events. */
    lemma Prefix()
      requires output.Valid() && OutputKept()
      ensures log.held == |output.Contents()| < RING_SIZE
      ensures log.kept ==> log.wire <= log.queued && |log.queued| == |log.wire| + log.held
      ensures log.kept ==> log.wire + output.Contents() == log.queued
      ensures !log.kept ==> |log.wire| + log.held < |log.queued|
    {
      hide RingBuffer.Contents;
    }

    /** Ends the connection; requests still pending are dropped without a call. */
    method Close()
      requires pool.Valid() && Accounted()
      modifies this`hasPcb, this`timer, this`conn, this`events, this`dropped, pool, pool.slots
      ensures pool.Valid() && Accounted() && conn == TcpDisconnected && !hasPcb && !timer && pool.Queue() == []
      ensures events == old(events) + if old(conn).TcpDisconnected? then [] else [ConnectionDown]
      ensures dropped == old(dropped) + multiset(Callbacks(old(pool.Queue())))
    {
      hide RequestPool.Valid, RequestPool.Queue, Balanced, Callbacks;
      ghost var down: seq<Event> := if conn == TcpDisconnected then [] else [ConnectionDown];
      BalancedClosing(accepted, events, pool.Queue(), dropped, down);
      GiveUp();
      hasPcb, timer, conn, events := false, false, TcpDisconnected, events + down;
    }

    /** Empties the queue; its callbacks are lost. */
    method GiveUp()
      requires pool.Valid()
      modifies this`dropped, pool, pool.slots
      ensures pool.Valid() && pool.Queue() == [] && dropped == old(dropped) + multiset(Callbacks(old(pool.Queue())))
    {
      hide RequestPool.Valid, RequestPool.Queue, Callbacks;
      dropped := dropped + multiset(Callbacks(pool.Queue()));
      pool.Clear();
    }

    /** A segment, or `None` when the server has closed the connection. The result tells
        whether its length fields are within the model. */
    method ReceiveCb(p: Option<seq<byte>>, errOk: bool) returns (modelled: bool)
      requires Valid() && timer && (p.Some? ==> |p.value| < 0x1_0000)
      modifies this`log, this`events, this`inpubPktId, this`conn, this`cyclicTick, this`phase, this`msgIdx, this`dropped
      modifies this`hasPcb, this`timer, this`serverWatchdog, rx, output, output.buf, pool, pool.slots
      ensures Grows() && (modelled ==> Valid())
      ensures modelled <==> p.None? || !errOk || !Feed(old(phase), old(Session()), p.value).status.Overlong?
      ensures p.None? || !errOk ==> unchanged(`log, `inpubPktId, `cyclicTick, `phase, `serverWatchdog)
      ensures p.None? ==> conn == TcpDisconnected && events == old(events) + [ConnectionDown]
                          && dropped == old(dropped) + multiset(Callbacks(old(pool.Queue())))
      ensures p.Some? && !errOk ==> Session() == old(Session()) && unchanged(`events, `dropped)
      ensures p.Some? && errOk && modelled ==>
        var o := Feed(old(phase), old(Session()), p.value);
        var lost := old(dropped) + Lost(o.events, old(pool.Queue()), o.session.pending);
        && phase == o.phase && cyclicTick == o.session.cyclicTick && inpubPktId == o.session.inpubPktId
        && Answered(old(log), log, o.events) && serverWatchdog == (if keepAlive != 0 then 0 else old(serverWatchdog))
        && if o.status.Accepted? then Session() == o.session && events == old(events) + o.events && dropped == lost
           else
             && conn == TcpDisconnected && pool.Queue() == [] && events == old(events) + o.events + [ConnectionDown]
             && dropped == lost + multiset(Callbacks(o.session.pending))
    {
      hide RingBuffer.Valid, RingBuffer.Contents, RequestPool.Valid, RequestPool.Queue, RequestPool.Settled,
           Feed, Balanced, Callbacks, Parsing, OutputKept, Answered, Lost, Accounted;
      modelled := true;
      if p.None? {
        Close();
        return;
      }
      if !errOk {
        return;
      }
      modelled := ReceiveSegment(p.value);
    }

    /** A segment that has come without an error. */
    method ReceiveSegment(p: seq<byte>) returns (modelled: bool)
      requires Shape() && OutputKept() && Accounted() && pool.Settled() && Parsing() && |p| < 0x1_0000
      requires hasPcb && timer && Up(conn)
      modifies this`log, this`events, this`inpubPktId, this`conn, this`cyclicTick, this`phase, this`msgIdx, this`dropped
      modifies this`hasPcb, this`timer, this`serverWatchdog, rx, output, output.buf, pool, pool.slots
      ensures old(events) <= events && old(dropped) <= dropped
      ensures var o := Feed(old(phase), old(Session()), p);
        var lost := old(dropped) + Lost(o.events, old(pool.Queue()), o.session.pending);
        && (modelled <==> !o.status.Overlong?)
        && (modelled ==>
              && Shape() && OutputKept() && Accounted()
              && phase == o.phase && cyclicTick == o.session.cyclicTick && inpubPktId == o.session.inpubPktId
              && Answered(old(log), log, o.events) && serverWatchdog == (if keepAlive != 0 then 0 else old(serverWatchdog))
              && if o.status.Accepted? then
                   && hasPcb && timer && Up(conn) && pool.Settled() && Parsing()
                   && Session() == o.session && events == old(events) + o.events && dropped == lost
                 else
                   && !hasPcb && !timer && conn == TcpDisconnected && pool.Queue() == []
                   && events == old(events) + o.events + [ConnectionDown]
                   && dropped == lost + multiset(Callbacks(o.session.pending)))
    {
      hide RingBuffer.Valid, RingBuffer.Contents, RequestPool.Valid, RequestPool.Queue, RequestPool.Settled,
           Feed, Balanced, Callbacks, Parsing, OutputKept, Answered, Lost, Accounted;
      modelled := true;
      var status := Receive(p);
      if status.Overlong? {
        return false;
      }
      if !status.Accepted? {
        Close();
      }
      if keepAlive != 0 {
        serverWatchdog := 0;
      }
    }

    /** The parser with the account of callbacks. */
    method Receive(p: seq<byte>) returns (status: Status)
      requires Shape() && OutputKept() && Accounted() && pool.Settled() && Parsing() && |p| < 0x1_0000
      modifies this`log, this`events, this`inpubPktId, this`conn, this`cyclicTick
      modifies this`phase, this`msgIdx, this`dropped, rx, output, output.buf, pool, pool.slots
      ensures Shape() && OutputKept() && Accounted() && old(dropped) <= dropped
      ensures var o := Feed(old(phase), old(Session()), p);
        && status == o.status && phase == o.phase && Session() == o.session && events == old(events) + o.events
        && Answered(old(log), log, o.events) && dropped == old(dropped) + Lost(o.events, old(pool.Queue()), o.session.pending)
      ensures status.Accepted? ==> pool.Settled() && Parsing()
      ensures Up(conn) == old(Up(conn))
    {
      hide RingBuffer.Valid, RingBuffer.Contents, RequestPool.Valid, RequestPool.Queue, RequestPool.Settled,
           Feed, Balanced, Lost;
      ghost var o := Feed(phase, Session(), p);
      FeedStaysUp(phase, Session(), p);
      FeedBalanced(accepted, events, dropped, phase, Session(), p);
      dropped := dropped + Lost(o.events, pool.Queue(), o.session.pending);
      status := ParseIncoming(p);
    }

    /** TCP has sent something: requests without a number are complete, and the ring is
        offered again. */
    method SentCb()
      requires Valid()
      modifies this`cyclicTick, this`serverWatchdog, this`events, this`log, output`get, pool, pool.slots
      ensures Valid() && Grows()
      ensures old(conn) != MqttConnected ==>
        Session() == old(Session()) && unchanged(`events, `log, `serverWatchdog)
      ensures old(conn) == MqttConnected ==>
        && Session() == old(Session()).(cyclicTick := 0, pending := Numbered(old(pool.Queue())))
        && events == old(events) + SentEvents(Unnumbered(old(pool.Queue()))) && serverWatchdog == 0
        && Sends(old(log), log)
    {
      hide RingBuffer.Valid, RingBuffer.Contents, RequestPool.Valid, RequestPool.Queue, RequestPool.Settled,
           Balanced, Parsing, Numbered, Unnumbered, SentEvents;
      if conn == MqttConnected {
        SentBalanced(accepted, events, pool.Queue(), dropped);
        cyclicTick, serverWatchdog := 0, 0;
        CompleteSent();
        Send();
      }
    }

    /** Takes the oldest request without a number, if there is one. */
    method TakeSent() returns (r: int)
      requires pool.Valid() && pool.Settled()
      modifies pool, pool.slots
      ensures pool.Valid() && pool.SettledBut(r) && (r != NIL ==> pool.Held(r))
      ensures Numbered(pool.Queue()) == Numbered(old(pool.Queue()))
      ensures SentEvents(Unnumbered(old(pool.Queue())))
           == (if r == NIL then [] else CompletedEvents(pool.slots[r].cb, true)) + SentEvents(Unnumbered(pool.Queue()))
      ensures if r == NIL then
          pool.Queue() == old(pool.Queue()) == Numbered(pool.Queue()) && Unnumbered(pool.Queue()) == []
              else |pool.Queue()| < |old(pool.Queue())|
    {
      hide RequestPool.Valid, RequestPool.Queue, Numbered, Unnumbered, Without, CompletedEvents;
      TakeUnnumbered(pool.Queue());
      r := pool.Take(0);
      assert r != NIL ==> ([Pending(0, pool.slots[r].cb, 0)] + Unnumbered(pool.Queue()))[1..] == Unnumbered(pool.Queue());
    }

    /** Calls back and frees a held slot. */
    method Complete(r: int)
      requires pool.Valid() && pool.Held(r) && pool.SettledBut(r)
      modifies this`events, pool.slots
      ensures pool.Valid() && pool.Settled() && pool.Queue() == old(pool.Queue())
      ensures events == old(events) + CompletedEvents(old(pool.slots[r].cb), true)
    {
      hide RequestPool.Valid, RequestPool.Queue;
      var cb := pool.slots[r].cb;
      if cb.Some? {
        events := events + [Completed(cb.value, true)];
      }
      pool.Delete(r);
    }

    method CompleteSent()
      requires pool.Valid() && pool.Settled()
      modifies this`events, pool, pool.slots
      ensures pool.Valid() && pool.Settled() && pool.Queue() == Numbered(old(pool.Queue()))
      ensures events == old(events) + SentEvents(Unnumbered(old(pool.Queue())))
    {
      hide RequestPool.Valid, RequestPool.Queue, Numbered, Unnumbered, CompletedEvents;
      ghost var owed := SentEvents(Unnumbered(pool.Queue()));
      ghost var all := events + owed;
      var r := TakeSent();
      while r != NIL
        invariant pool.Valid() && pool.SettledBut(r) && (r != NIL ==> pool.Held(r))
        invariant Numbered(pool.Queue()) == Numbered(old(pool.Queue()))
        invariant owed == (if r == NIL then [] else CompletedEvents(pool.slots[r].cb, true))
                          + SentEvents(Unnumbered(pool.Queue()))
        invariant all == events + owed
        invariant r == NIL ==> Numbered(pool.Queue()) == pool.Queue() && Unnumbered(pool.Queue()) == []
        decreases |pool.Queue()|, r != NIL
      {
        owed := SentEvents(Unnumbered(pool.Queue()));
        Assoc(events, CompletedEvents(pool.slots[r].cb, true), owed);
        Complete(r);
        r := TakeSent();
      }
    }

    method PollCb()
      requires Valid()
      modifies this`log, output`get
      ensures Valid() && if conn == MqttConnected then Sends(old(log), log) else log == old(log)
    {
      hide RingBuffer.Valid, RingBuffer.Contents, RequestPool.Valid, RequestPool.Queue, RequestPool.Settled,
           Balanced, Parsing;
      if conn == MqttConnected {
        Send();
      }
    }

    /** The connection has failed; TCP has already freed its control block. */
    method ErrCb()
      requires Valid() && hasPcb
      modifies this`hasPcb, this`timer, this`conn, this`events, this`dropped, pool, pool.slots
      ensures Valid() && Grows() && conn == TcpDisconnected && pool.Queue() == []
      ensures events == old(events) + [ConnectionDown]
      ensures dropped == old(dropped) + multiset(Callbacks(old(pool.Queue())))
    {
      hide RingBuffer.Valid, RingBuffer.Contents, RequestPool.Valid, RequestPool.Queue, RequestPool.Settled,
           Balanced, Parsing, OutputKept;
      hasPcb := false;
      Close();
    }

    /** The connection is established: the parser starts, the CONNECT message goes out. */
    method TcpConnectCb(errOk: bool)
      requires Valid() && conn == TcpConnecting
      modifies this`msgIdx, this`phase, this`conn, this`timer, this`cyclicTick, this`log, output`get
      ensures Valid()
      ensures if errOk then conn == MqttConnecting && cyclicTick == 0 && phase == Header([]) && Sends(old(log), log)
              else unchanged(`conn, `cyclicTick, `phase, `log)
    {
      hide RingBuffer.Valid, RingBuffer.Contents, RequestPool.Valid, RequestPool.Queue, RequestPool.Settled,
           Balanced, Accounted;
      if errOk {
        msgIdx, phase := 0, Header([]);
        conn := MqttConnecting;
        timer := true;
        cyclicTick := 0;
        assert rx[..0] == [];
        Send();
      }
    }

    /** Closed, as told to the application, after `es` and with `q` pending. */
    ghost predicate Ended(es: seq<Event>, lost: multiset<nat>, q: seq<Pending>)
      requires pool.Valid()
      reads this`conn, this`events, this`dropped, pool, pool.slots
    {
      && conn == TcpDisconnected && pool.Queue() == []
      && events == es + [ConnectionDown] && dropped == lost + multiset(Callbacks(q))
    }

    /** A ping has gone out if it was due and fitted. */
    ghost predicate Pings(tick: u16, was: Output)
      reads this`cyclicTick, this`log, this`keepAlive
    {
      if keepAlive == 0 then cyclicTick == tick && log == was
      else if PingDue(tick, keepAlive, was.held) then
        cyclicTick == 0 && log == Put(was, FixedHeader(PINGREQ, 0, 0, 0, 0))
      else cyclicTick == Plus1(tick) && log == was
    }

    /** The server has been silent for more than one and a half keep-alive times. */
    ghost predicate Unresponsive()
      reads this`keepAlive, this`serverWatchdog
    {
      keepAlive > 0 && Silent(serverWatchdog, keepAlive)
    }

    /** The cyclic timer has run out. */
    method CyclicTimer()
      requires Valid() && timer
      modifies this`cyclicTick, this`serverWatchdog, this`hasPcb, this`timer, this`conn, this`events, this`dropped
      modifies this`log, output`put, output.buf, pool, pool.slots
      ensures Valid() && Grows()
      ensures old(conn) == MqttConnecting ==>
        && unchanged(`log, `serverWatchdog) && cyclicTick == Plus1(old(cyclicTick))
        && if cyclicTick * CYCLIC_INTERVAL >= CONNECT_TIMEOUT then Ended(old(events), old(dropped), old(pool.Queue()))
           else conn == MqttConnecting && pool.Queue() == old(pool.Queue()) && unchanged(`events, `dropped)
      ensures old(conn) == MqttConnected ==>
        var timedOut := old(events) + TimeoutEvents(Timeouts(old(pool.Queue()), CYCLIC_INTERVAL));
        var later := Elapse(old(pool.Queue()), CYCLIC_INTERVAL);
        && serverWatchdog == (if keepAlive > 0 then Plus1(old(serverWatchdog)) else old(serverWatchdog))
        && Pings(old(cyclicTick), old(log))
        && if Unresponsive() then Ended(timedOut, old(dropped), later)
           else conn == MqttConnected && events == timedOut && pool.Queue() == later && dropped == old(dropped)
    {
      hide RingBuffer.Valid, RingBuffer.Contents, RequestPool.Valid, RequestPool.Queue, RequestPool.Settled,
           Balanced, Parsing, TimeoutEvents, Timeouts, Elapse, OutputKept, Accounted, Pings, Unresponsive, Callbacks, Plus1, Ended, Session;
      timer := false;
      var restart := true;
      if conn == MqttConnecting {
        restart := ConnectTick();
      } else {
        restart := ConnectedTick();
      }
      timer := restart;
    }

    method ConnectedTick() returns (restart: bool)
      requires Shape() && OutputKept() && Accounted() && pool.Settled() && conn == MqttConnected && hasPcb
      modifies this`cyclicTick, this`serverWatchdog, this`hasPcb, this`timer, this`conn, this`events, this`dropped
      modifies this`log, output`put, output.buf, pool, pool.slots
      ensures Shape() && OutputKept() && Accounted() && old(dropped) <= dropped && old(events) <= events
      ensures var timedOut := old(events) + TimeoutEvents(Timeouts(old(pool.Queue()), CYCLIC_INTERVAL));
        var later := Elapse(old(pool.Queue()), CYCLIC_INTERVAL);
        && serverWatchdog == (if keepAlive > 0 then Plus1(old(serverWatchdog)) else old(serverWatchdog))
        && Pings(old(cyclicTick), old(log))
        && restart == !Unresponsive()
        && (!restart ==> conn == TcpDisconnected && pool.Queue() == [])
        && if restart then
             && conn == MqttConnected && hasPcb && pool.Settled()
             && events == timedOut && pool.Queue() == later && dropped == old(dropped)
           else !hasPcb && Ended(timedOut, old(dropped), later)
    {
      hide RingBuffer.Valid, RingBuffer.Contents, RequestPool.Valid, RequestPool.Queue, RequestPool.Settled,
           Balanced, TimeoutEvents, Timeouts, Elapse, OutputKept;
      restart := true;
      TimeOutRequests();
      if keepAlive > 0 {
        restart := Watch();
        KeepAlive();
      }
    }

    method ConnectTick() returns (restart: bool)
      requires pool.Valid() && Accounted() && pool.Settled() && conn == MqttConnecting && hasPcb
      modifies this`cyclicTick, this`hasPcb, this`timer, this`conn, this`events, this`dropped, pool, pool.slots
      ensures pool.Valid() && Accounted() && old(dropped) <= dropped && old(events) <= events
      ensures cyclicTick == Plus1(old(cyclicTick)) && restart == (cyclicTick * CYCLIC_INTERVAL < CONNECT_TIMEOUT)
      ensures !restart ==> conn == TcpDisconnected && pool.Queue() == []
      ensures if restart then
          && conn == MqttConnecting && hasPcb && pool.Settled()
          && pool.Queue() == old(pool.Queue()) && unchanged(`events, `dropped)
              else !hasPcb && Ended(old(events), old(dropped), old(pool.Queue()))
    {
      hide RequestPool.Valid, RequestPool.Queue, RequestPool.Settled, Balanced;
      restart := true;
      cyclicTick := (cyclicTick + 1) % 0x1_0000;
      if cyclicTick * CYCLIC_INTERVAL >= CONNECT_TIMEOUT {
        Close();
        restart := false;
      }
    }

    method Watch() returns (restart: bool)
      requires pool.Valid() && Accounted() && pool.Settled() && conn == MqttConnected && hasPcb && keepAlive > 0
      modifies this`serverWatchdog, this`hasPcb, this`timer, this`conn, this`events, this`dropped, pool, pool.slots
      ensures pool.Valid() && Accounted() && old(dropped) <= dropped && old(events) <= events
      ensures serverWatchdog == Plus1(old(serverWatchdog)) && restart == !Unresponsive()
      ensures if restart then
          && conn == MqttConnected && hasPcb && pool.Settled()
          && pool.Queue() == old(pool.Queue()) && unchanged(`events, `dropped)
              else !hasPcb && Ended(old(events), old(dropped), old(pool.Queue()))
    {
      hide RequestPool.Valid, RequestPool.Queue, RequestPool.Settled, Balanced;
      restart := true;
      serverWatchdog := (serverWatchdog + 1) % 0x1_0000;
      if serverWatchdog * CYCLIC_INTERVAL > keepAlive + keepAlive / 2 {
        Close();
        restart := false;
      }
    }

    method TimeOutRequests()
      requires pool.Valid() && pool.Settled() && Accounted()
      modifies this`events, pool, pool.slots
      ensures pool.Valid() && pool.Settled() && Accounted()
      ensures pool.Queue() == Elapse(old(pool.Queue()), CYCLIC_INTERVAL)
      ensures events == old(events) + TimeoutEvents(Timeouts(old(pool.Queue()), CYCLIC_INTERVAL))
    {
      hide RequestPool.Valid, RequestPool.Queue, RequestPool.Settled, Balanced, TimeoutEvents, Timeouts, Elapse;
      ElapseBalanced(accepted, events, pool.Queue(), dropped, CYCLIC_INTERVAL);
      var called := pool.TimeElapsed(CYCLIC_INTERVAL);
      events := events + TimeoutEvents(called);
    }

    /** Queues a ping once nothing has been sent for the keep-alive time. */
    method KeepAlive()
      requires output.Valid() && OutputKept() && keepAlive > 0
      modifies this`cyclicTick, this`log, output`put, output.buf
      ensures output.Valid() && OutputKept() && Pings(old(cyclicTick), old(log))
    {
      cyclicTick := (cyclicTick + 1) % 0x1_0000;
      if cyclicTick * CYCLIC_INTERVAL >= keepAlive {
        var fits := CheckSpace(output, 0);
        if fits {
          ghost var c := output.Contents();
          AppendFixedHeader(output, PINGREQ, 0, 0, 0, 0);
          Book(c, FixedHeader(PINGREQ, 0, 0, 0, 0));
          cyclicTick := 0;
        }
      }
    }

    method GeneratePacketId() returns (id: u16)
      modifies this`pktIdSeq
      ensures id == pktIdSeq == NextPktId(old(pktIdSeq))
    {
      pktIdSeq := (pktIdSeq + 1) % 0x1_0000;
      if pktIdSeq == 0 {
        pktIdSeq := (pktIdSeq + 1) % 0x1_0000;
      }
      id := pktIdSeq;
    }

    method AppendPublish(topic: seq<byte>, payload: Option<seq<byte>>, payloadLength: u16, qos: nat, retain: nat, pktId: u16)
      requires output.Valid() && OutputKept()
      requires PublishLength(topic, payloadLength, qos) < 0x1_0000
      requires payload.Some? ==> payloadLength <= |payload.value|
      modifies this`log, output`put, output.buf
      ensures output.Valid() && OutputKept()
      ensures var bytes := PublishBytes(topic, payload, payloadLength, qos, retain, pktId);
        log == Put(old(log), bytes)
    {
      hide RingBuffer.Valid, RingBuffer.Contents, FixedHeader, Str, U16, PublishLength;
      ghost var c := output.Contents();
      ghost var id: seq<byte>, data: seq<byte> := [], Given(payload, payloadLength);
      AppendFixedHeader(output, PUBLISH, 0, qos, retain, PublishLength(topic, payloadLength, qos));
      TopicFits(topic, payloadLength, qos);
      AppendString(output, topic, |topic|);
      if qos > 0 {
        id := U16(pktId);
        AppendU16(output, pktId);
      }
      if payload.Some? && payloadLength > 0 {
        AppendBuf(output, payload.value, payloadLength);
      }
      PutAll4(c, FixedHeader(PUBLISH, 0, qos, retain, PublishLength(topic, payloadLength, qos)), Str(topic), id, data);
      Book(c, PublishBytes(topic, payload, payloadLength, qos, retain, pktId));
    }

    /** A slot for a request and room for its message, or neither. */
    method Reserve(pktId: u16, cb: Callback, rLength: u16) returns (r: int)
      requires pool.Valid() && pool.Settled() && output.Valid()
      modifies pool.slots
      ensures pool.Valid() && pool.Queue() == old(pool.Queue())
      ensures r == NIL <==> old(pool.Full()) || !Admits(output.Contents(), rLength)
      ensures r == NIL ==> pool.Settled()
      ensures r != NIL ==>
        pool.Held(r) && pool.SettledBut(r) && pool.slots[r].pktId == pktId && pool.slots[r].cb == cb
    {
      hide RingBuffer.Valid, RingBuffer.Contents, RequestPool.Valid, RequestPool.Queue, RequestPool.SettledBut,
           RequestPool.Full, Admits;
      r := pool.Create(pktId, cb);
      if r != NIL {
        var fits := CheckSpace(output, rLength);
        if !fits {
          pool.Delete(r);
          r := NIL;
        }
      }
    }

    /** The message into the ring, its request into the queue. */
    method SendPublish(topic: seq<byte>, payload: Option<seq<byte>>, payloadLength: u16, qos: nat, retain: nat,
                       pktId: u16, r: int)
      requires Shape() && OutputKept() && Accounted() && pool.Held(r) && pool.SettledBut(r)
      requires PublishLength(topic, payloadLength, qos) < 0x1_0000
      requires payload.Some? ==> payloadLength <= |payload.value|
      modifies this`log, this`accepted, output`put, output.buf, pool, pool.slots
      ensures Shape() && OutputKept() && Accounted() && pool.Settled() && old(accepted) <= accepted
      ensures var bytes := PublishBytes(topic, payload, payloadLength, qos, retain, pktId);
        log == Put(old(log), bytes)
      ensures var s := old(pool.slots[r]);
        && pool.Queue() == Append(old(pool.Queue()), s.pktId, s.cb)
        && accepted == old(accepted) + multiset(CallbackOf(Pending(s.pktId, s.cb, REQ_TIMEOUT)))
    {
      hide RingBuffer.Valid, RingBuffer.Contents, RequestPool.Valid, RequestPool.Queue, RequestPool.SettledBut,
           OutputKept, PublishBytes, Balanced, CallbackOf;
      AppendPublish(topic, payload, payloadLength, qos, retain, pktId);
      Accept(r);
    }

    method Publish(topic: seq<byte>, payload: Option<seq<byte>>, payloadLength: u16, qos: nat, retain: nat, cb: Callback)
      returns (err: Err)
      requires Valid() && (payload.Some? ==> payloadLength <= |payload.value|)
      modifies this`pktIdSeq, this`log, this`accepted, output`put, output.buf, pool, pool.slots
      ensures Valid() && Grows()
      ensures var n := PublishLength(topic, payloadLength, qos);
        err == if conn == TcpDisconnected then ErrConn
               else if |topic| > 0xFFFD || n > 0xFFFF then ErrArg
               else if old(pool.Full()) || !Admits(old(output.Contents()), n) then ErrMem
               else Ok
      ensures pktIdSeq == if conn != TcpDisconnected && |topic| <= 0xFFFD && qos > 0 then NextPktId(old(pktIdSeq))
                          else old(pktIdSeq)
      ensures err != Ok ==> log == old(log) && pool.Queue() == old(pool.Queue()) && accepted == old(accepted)
      ensures err == Ok ==>
        var id := if qos > 0 then pktIdSeq else 0;
        && log == Put(old(log), PublishBytes(topic, payload, payloadLength, qos, retain, id))
        && pool.Queue() == Append(old(pool.Queue()), id, cb)
        && accepted == old(accepted) + multiset(CallbackOf(Pending(id, cb, REQ_TIMEOUT)))
    {
      hide RingBuffer.Valid, RingBuffer.Contents, RequestPool.Valid, RequestPool.Queue, RequestPool.SettledBut,
           RequestPool.Held, RequestPool.Full, Balanced, Parsing, OutputKept, PublishBytes, CallbackOf, Admits,
           MqttDeadlines.Append, NextPktId;
      if conn == TcpDisconnected {
        return ErrConn;
      }
      if |topic| > 0xFFFD {
        return ErrArg;
      }
      var totalLen := PublishLength(topic, payloadLength, qos);
      var pktId: u16 := 0;
      if qos > 0 {
        pktId := GeneratePacketId();
      }
      if totalLen > 0xFFFF {
        return ErrArg;
      }
      var r := Reserve(pktId, cb, totalLen);
      if r == NIL {
        return ErrMem;
      }
      SendPublish(topic, payload, payloadLength, qos, retain, pktId, r);
      err := Ok;
    }

    /** Puts a request that has been created into the queue. */
    method Accept(r: int)
      requires pool.Valid() && pool.Held(r) && pool.SettledBut(r) && Accounted()
      modifies this`accepted, pool, pool.slots
      ensures pool.Valid() && pool.Settled() && Accounted()
      ensures var s := old(pool.slots[r]);
        && pool.Queue() == Append(old(pool.Queue()), s.pktId, s.cb)
        && accepted == old(accepted) + multiset(CallbackOf(Pending(s.pktId, s.cb, REQ_TIMEOUT)))
    {
      hide RequestPool.Valid, RequestPool.Queue, Balanced, CallbackOf;
      ghost var s := pool.slots[r];
      AppendBalanced(accepted, events, pool.Queue(), dropped, s.pktId, s.cb);
      accepted := accepted + multiset(CallbackOf(Pending(s.pktId, s.cb, REQ_TIMEOUT)));
      pool.Append(r);
    }

    method AppendSubscribe(topic: seq<byte>, qos: nat, sub: bool, pktId: u16)
      requires output.Valid() && OutputKept()
      requires SubscribeLength(topic, sub) < 0x1_0000 && qos < 3
      modifies this`log, output`put, output.buf
      ensures output.Valid() && OutputKept()
      ensures var bytes := SubscribeBytes(topic, qos, sub, pktId);
        log == Put(old(log), bytes)
    {
      hide RingBuffer.Valid, RingBuffer.Contents, FixedHeader, Str, U16;
      ghost var c := output.Contents();
      var msgType := if sub then SUBSCRIBE else UNSUBSCRIBE;
      ghost var last: seq<byte> := if sub then [qos] else [];
      AppendFixedHeader(output, msgType, 0, 1, 0, SubscribeLength(topic, sub));
      AppendU16(output, pktId);
      AppendString(output, topic, |topic|);
      if sub {
        AppendU8(output, qos);
      }
      PutAll4(c, FixedHeader(msgType, 0, 1, 0, SubscribeLength(topic, sub)), U16(pktId), Str(topic), last);
      Book(c, SubscribeBytes(topic, qos, sub, pktId));
    }

    method SendSubscribe(topic: seq<byte>, qos: nat, sub: bool, pktId: u16, r: int)
      requires Shape() && OutputKept() && Accounted() && pool.Held(r) && pool.SettledBut(r)
      requires SubscribeLength(topic, sub) < 0x1_0000 && qos < 3
      modifies this`log, this`accepted, output`put, output.buf, pool, pool.slots
      ensures Shape() && OutputKept() && Accounted() && pool.Settled() && old(accepted) <= accepted
      ensures var bytes := SubscribeBytes(topic, qos, sub, pktId);
        log == Put(old(log), bytes)
      ensures var s := old(pool.slots[r]);
        && pool.Queue() == Append(old(pool.Queue()), s.pktId, s.cb)
        && accepted == old(accepted) + multiset(CallbackOf(Pending(s.pktId, s.cb, REQ_TIMEOUT)))
    {
      hide RingBuffer.Valid, RingBuffer.Contents, RequestPool.Valid, RequestPool.Queue, RequestPool.SettledBut,
           OutputKept, SubscribeBytes, Balanced, CallbackOf;
      AppendSubscribe(topic, qos, sub, pktId);
      Accept(r);
    }

    /** Asks to subscribe to a topic, or to end a subscription. */
    method SubUnsub(topic: seq<byte>, qos: nat, cb: Callback, sub: bool) returns (err: Err)
      requires Valid() && qos < 3
      modifies this`pktIdSeq, this`log, this`accepted, output`put, output.buf, pool, pool.slots
      ensures Valid() && Grows()
      ensures var n := SubscribeLength(topic, sub);
        err == if |topic| > 0xFFFD || n > 0xFFFF then ErrArg
               else if conn == TcpDisconnected then ErrConn
               else if old(pool.Full()) || !Admits(old(output.Contents()), n) then ErrMem
               else Ok
      ensures pktIdSeq == if err in {Ok, ErrMem} then NextPktId(old(pktIdSeq)) else old(pktIdSeq)
      ensures err != Ok ==> log == old(log) && pool.Queue() == old(pool.Queue()) && accepted == old(accepted)
      ensures err == Ok ==>
        && log == Put(old(log), SubscribeBytes(topic, qos, sub, pktIdSeq))
        && pool.Queue() == Append(old(pool.Queue()), pktIdSeq, cb)
        && accepted == old(accepted) + multiset(CallbackOf(Pending(pktIdSeq, cb, REQ_TIMEOUT)))
    {
      hide RingBuffer.Valid, RingBuffer.Contents, RequestPool.Valid, RequestPool.Queue, RequestPool.SettledBut,
           RequestPool.Held, RequestPool.Full, Balanced, Parsing, OutputKept, SubscribeBytes, CallbackOf, Admits;
      if |topic| > 0xFFFD {
        return ErrArg;
      }
      var totalLen := SubscribeLength(topic, sub);
      if totalLen > 0xFFFF {
        return ErrArg;
      }
      if conn == TcpDisconnected {
        return ErrConn;
      }
      var pktId := GeneratePacketId();
      var r := Reserve(pktId, cb, totalLen);
      if r == NIL {
        return ErrMem;
      }
      SendSubscribe(topic, qos, sub, pktId, r);
      err := Ok;
    }

    method WipeFields()
      modifies this`msgIdx, this`conn, this`hasPcb, this`cyclicTick, this`serverWatchdog, this`keepAlive
      modifies this`pktIdSeq, this`inpubPktId, this`timer, rx
      ensures conn == TcpDisconnected && !hasPcb && !timer && keepAlive == pktIdSeq == serverWatchdog == 0
      ensures cyclicTick == inpubPktId == 0
    {
      forall i | 0 <= i < rx.Length {
        rx[i] := 0;
      }
      msgIdx, conn, hasPcb, cyclicTick, serverWatchdog := 0, TcpDisconnected, false, 0, 0;
      keepAlive, pktIdSeq, inpubPktId, timer := 0, 0, 0, false;
    }

    /** The client as after allocation, but for the history. */
    method Wipe()
      requires Shape() && pool.Queue() == [] && Accounted()
      modifies this`msgIdx, this`conn, this`hasPcb, this`cyclicTick, this`serverWatchdog, this`keepAlive, this`pktIdSeq
      modifies this`inpubPktId, this`timer, this`log, rx, output`put, output`get, pool, pool.slots
      ensures Shape() && OutputKept() && Accounted() && pool.Settled() && pool.Queue() == []
      ensures conn == TcpDisconnected && !hasPcb && !timer && output.Contents() == [] && log == NO_OUTPUT
      ensures keepAlive == pktIdSeq == serverWatchdog == 0 && cyclicTick == inpubPktId == 0
    {
      hide RingBuffer.Valid, RingBuffer.Contents, RequestPool.Valid, RequestPool.Queue, RequestPool.SettledBut, Balanced;
      WipeFields();
      log := NO_OUTPUT;
      output.Reset();
      pool.Init();
    }

    method Disconnect()
      requires Valid()
      modifies this`hasPcb, this`timer, this`conn, this`events, this`dropped, pool, pool.slots
      ensures Valid() && Grows()
      ensures conn == TcpDisconnected && pool.Queue() == [] && events == old(events)
      ensures dropped == old(dropped) + multiset(Callbacks(old(pool.Queue())))
    {
      hide RingBuffer.Valid, RingBuffer.Contents, RequestPool.Valid, RequestPool.Queue, RequestPool.SettledBut,
           Balanced, Parsing, OutputKept;
      if conn != TcpDisconnected {
        conn := TcpDisconnected;
        Close();
      }
    }

    method AppendOptional(s: seq<byte>)
      requires output.Valid() && |s| < 0x1_0000
      modifies output`put, output.buf
      ensures output.Valid() && output.Contents() == PutAll(old(output.Contents()), OptionalStr(s))
    {
      hide RingBuffer.Valid, RingBuffer.Contents, Str;
      if s != [] {
        AppendString(output, s, |s|);
      }
    }

    method AppendWill(will: Option<Will>)
      requires output.Valid() && (will.Some? ==> |will.value.topic| <= 0xFF && |will.value.msg| <= 0xFF)
      modifies output`put, output.buf
      ensures output.Valid() && output.Contents() == PutAll(old(output.Contents()), WillStr(will))
    {
      hide RingBuffer.Valid, RingBuffer.Contents, Str;
      if will.Some? {
        PutAllConcat(output.Contents(), Str(will.value.topic), Str(will.value.msg));
        AppendString(output, will.value.topic, |will.value.topic|);
        AppendString(output, will.value.msg, |will.value.msg|);
      }
    }

    /** The variable header and payload of CONNECT. */
    method AppendConnectBody(info: ConnectInfo)
      requires output.Valid() && LengthsOk(info)
      modifies output`put, output.buf
      ensures output.Valid() && output.Contents() == PutAll(old(output.Contents()), ConnectBody(info))
    {
      hide RingBuffer.Valid, RingBuffer.Contents, PutAll, Str, OptionalStr, WillStr, U16, ConnectFlags;
      ghost var c, built := output.Contents(), Str(PROTOCOL);
      AppendString(output, PROTOCOL, 4);
      PutAllConcat(c, built, [4]);
      AppendU8(output, 4);
      built := built + [4];
      PutAllConcat(c, built, [ConnectFlags(info)]);
      AppendU8(output, ConnectFlags(info));
      built := built + [ConnectFlags(info)];
      PutAllConcat(c, built, U16(info.keepAlive));
      AppendU16(output, info.keepAlive);
      built := built + U16(info.keepAlive);
      PutAllConcat(c, built, Str(info.clientId));
      AppendString(output, info.clientId, |info.clientId|);
      built := built + Str(info.clientId);
      PutAllConcat(c, built, WillStr(info.will));
      AppendWill(info.will);
      built := built + WillStr(info.will);
      PutAllConcat(c, built, OptionalStr(info.user));
      AppendOptional(info.user);
      built := built + OptionalStr(info.user);
      PutAllConcat(c, built, OptionalStr(info.pass));
      AppendOptional(info.pass);
    }

    /** Starts a connection attempt. The booleans are TCP's answers to the requests for a
        control block, a local port and a connection. */
    method Connect(info: ConnectInfo, pcbOk: bool, bindOk: bool, connectOk: bool) returns (err: Err)
      requires Valid()
      modifies this`msgIdx, this`conn, this`hasPcb, this`cyclicTick, this`serverWatchdog, this`keepAlive, this`pktIdSeq
      modifies this`inpubPktId, this`timer, this`log, rx, output, output.buf, pool, pool.slots
      ensures Valid() && Grows()
      ensures err == if old(conn) != TcpDisconnected then ErrIsConn
                     else if !LengthsOk(info) then ErrVal
                     else if !Admits([], ConnectLength(info)) || !pcbOk then ErrMem
                     else if !bindOk || !connectOk then ErrTcp
                     else Ok
      ensures err == ErrIsConn ==>
        Session() == old(Session()) && unchanged(`log, `keepAlive, `serverWatchdog, `pktIdSeq)
      ensures err != ErrIsConn ==>
        && Session() == MqttReceive.Session.Session(if err == Ok then TcpConnecting else TcpDisconnected, 0, 0, [])
        && log == (if err == Ok then Put(NO_OUTPUT, ConnectBytes(info)) else NO_OUTPUT)
        && keepAlive == info.keepAlive && serverWatchdog == pktIdSeq == 0
    {
      hide RingBuffer.Valid, RingBuffer.Contents, RequestPool.Valid, RequestPool.Queue, RequestPool.SettledBut,
           Balanced, Parsing, Admits, ConnectBytes, LengthsOk, OutputKept, Put, Accounted, ConnectLength;
      if conn != TcpDisconnected {
        return ErrIsConn;
      }
      Wipe();
      keepAlive := info.keepAlive;
      if !LengthsOk(info) {
        return ErrVal;
      }
      ConnectFits(info);
      var fits := CheckSpace(output, ConnectLength(info));
      if !fits || !pcbOk {
        return ErrMem;
      }
      err := Open(info, bindOk, connectOk);
    }

    /** Opens the connection and queues the CONNECT message. */
    method Open(info: ConnectInfo, bindOk: bool, connectOk: bool) returns (err: Err)
      requires output.Valid() && OutputKept() && LengthsOk(info) && conn == TcpDisconnected && !hasPcb
      modifies this`hasPcb, this`conn, this`log, output`put, output.buf
      ensures output.Valid() && OutputKept()
      ensures err == if !bindOk || !connectOk then ErrTcp else Ok
      ensures if err == Ok then conn == TcpConnecting && hasPcb && log == Put(old(log), ConnectBytes(info))
              else conn == TcpDisconnected && !hasPcb && log == old(log)
    {
      hide RingBuffer.Valid, RingBuffer.Contents, OutputKept, ConnectBytes, LengthsOk;
      hasPcb := true;
      if !bindOk || !connectOk {
        hasPcb := false;
        return ErrTcp;
      }
      conn := TcpConnecting;
      AppendConnect(info);
      err := Ok;
    }

    method AppendConnect(info: ConnectInfo)
      requires output.Valid() && OutputKept() && LengthsOk(info)
      modifies this`log, output`put, output.buf
      ensures output.Valid() && OutputKept() && log == Put(old(log), ConnectBytes(info))
    {
      hide RingBuffer.Valid, RingBuffer.Contents, ConnectBody, FixedHeader;
      ghost var c := output.Contents();
      AppendFixedHeader(output, CONNECT, 0, 0, 0, ConnectLength(info));
      AppendConnectBody(info);
      PutAllConcat(c, FixedHeader(CONNECT, 0, 0, 0, ConnectLength(info)), ConnectBody(info));
      Book(c, ConnectBytes(info));
    }
  }
}
