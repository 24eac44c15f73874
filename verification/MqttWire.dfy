/** Control packets as MQTT 3.1.1 describes them: a reader that knows only the standard, and
    what it makes of the packets that the client writes and of those that it is fed
    (libraries/mqtt_patched.c, lines 455 to 533, 638 to 652 and 1108 to 1443). */
module MqttWire {
  import opened Bytes
  import opened MqttMessages
  import opened MqttReceive
  import opened MqttSegments
  import opened MqttStreams
  import opened MqttCalls
  import opened MqttOutput

  /** What is read, and the bytes behind it. */
  datatype Read<+T> = Read(value: T, rest: seq<byte>) | Malformed

  /** Section 2.2.3: seven bits a byte, the least significant first, four bytes at most. */
  function ReadLength(bs: seq<byte>, left: nat): Read<nat> {
    if bs == [] || left == 0 then Malformed
    else if bs[0] < 128 then Read(bs[0], bs[1..])
    else
      match ReadLength(bs[1..], left - 1)
      case Read(n, rest) => Read(bs[0] - 128 + 128 * n, rest)
      case Malformed => Malformed
  }

  /** Section 1.5.2: two bytes, the most significant first. */
  function ReadNumber(bs: seq<byte>): Read<u16> {
    if |bs| < 2 then Malformed
    else
      var high: int, low: int := bs[0], bs[1];
      Read(256 * high + low, bs[2..])
  }

  /** Section 1.5.3: a length and as many bytes. */
  function ReadField(bs: seq<byte>): Read<seq<byte>> {
    match ReadNumber(bs)
    case Read(n, rest) => if |rest| < n then Malformed else Read(rest[..n], rest[n..])
    case Malformed => Malformed
  }

  /** Section 2: the first byte of a packet, and exactly as many bytes as its length says. */
  datatype Frame = Frame(first: byte, body: seq<byte>) | NoFrame

  function ReadFrame(bs: seq<byte>): Frame {
    if bs == [] then NoFrame
    else
      match ReadLength(bs[1..], 4)
      case Read(n, rest) => if |rest| == n then Frame(bs[0], rest) else NoFrame
      case Malformed => NoFrame
  }

  /** One field if its flag is set, and nothing otherwise. */
  function ReadIf(flag: bool, bs: seq<byte>): Read<seq<byte>> {
    if flag then ReadField(bs) else Read([], bs)
  }

  /** The bits of the connect flags, section 3.1.2.3. */
  datatype Flags = Flags(user: bool, pass: bool, retain: bool, qos: nat, will: bool, clean: bool, reserved: bool)

  function FlagsOf(b: byte): Flags {
    Flags(b / 128 % 2 == 1, b / 64 % 2 == 1, b / 32 % 2 == 1, b / 8 % 4, b / 4 % 2 == 1, b / 2 % 2 == 1, b % 2 == 1)
  }

  /** What sections 3.1.2.3 to 3.1.2.9 demand of the flags. */
  predicate Allowed(f: Flags) {
    !f.reserved && f.qos < 3 && (!f.will ==> f.qos == 0 && !f.retain) && (!f.user ==> !f.pass)
  }

  /** The payload, section 3.1.3: client identifier, will topic, will message, user name and
      password, in this order, each that its flag announces. */
  function ReadPayload(f: Flags, keepAlive: u16, bs: seq<byte>): Option<ConnectInfo> {
    var id := ReadField(bs);
    if id.Malformed? then None
    else
      var topic := ReadIf(f.will, id.rest);
      if topic.Malformed? then None
      else
        var msg := ReadIf(f.will, topic.rest);
        if msg.Malformed? then None
        else
          var user := ReadIf(f.user, msg.rest);
          if user.Malformed? then None
          else
            var pass := ReadIf(f.pass, user.rest);
            if pass.Malformed? || pass.rest != [] then None
            else
              Some(ConnectInfo(id.value, keepAlive,
                               if f.will then Some(Will(topic.value, msg.value, f.qos, f.retain)) else None,
                               user.value, pass.value))
  }

  /** CONNECT, section 3.1: type 1, the protocol name MQTT, level 4, flags, keep-alive and
      payload. The flags are not judged here. */
  datatype Connecting = Connecting(flags: Flags, info: ConnectInfo)

  function ReadConnect(bs: seq<byte>): Option<Connecting> {
    var frame := ReadFrame(bs);
    if frame.NoFrame? || frame.first != 0x10 then None
    else
      var name := ReadField(frame.body);
      if name.Malformed? || name.value != [0x4D, 0x51, 0x54, 0x54] || |name.rest| < 2 || name.rest[0] != 4 then None
      else
        var f := FlagsOf(name.rest[1]);
        var time := ReadNumber(name.rest[2..]);
        if time.Malformed? then None
        else
          var info := ReadPayload(f, time.value, time.rest);
          if info.None? then None else Some(Connecting(f, info.value))
  }

  lemma {:induction false} LengthRead(n: nat, left: nat, rest: seq<byte>)
    requires |VarLen(n)| <= left
    ensures ReadLength(VarLen(n) + rest, left) == Read(n, rest)
    decreases n
  {
    var bs := VarLen(n) + rest;
    if n < 128 {
      assert bs[1..] == rest;
    } else {
      assert bs[1..] == VarLen(n / 128) + rest;
      LengthRead(n / 128, left - 1, rest);
    }
  }

  lemma NumberRead(n: u16, rest: seq<byte>)
    ensures ReadNumber(U16(n) + rest) == Read(n, rest)
  {
    assert (U16(n) + rest)[2..] == rest;
  }

  lemma FieldRead(s: seq<byte>, rest: seq<byte>)
    requires |s| < 0x1_0000
    ensures ReadField(Str(s) + rest) == Read(s, rest)
  {
    assert Str(s) + rest == U16(|s|) + (s + rest);
    NumberRead(|s|, s + rest);
    assert (s + rest)[..|s|] == s && (s + rest)[|s|..] == rest;
  }

  lemma FrameRead(msgType: nat, dup: nat, qos: nat, retain: nat, body: seq<byte>)
    requires |body| <= MAX_BODY
    ensures ReadFrame(FixedHeader(msgType, dup, qos, retain, |body|) + body)
         == Frame(ControlByte(msgType, dup, qos, retain), body)
  {
    hide ReadLength, VarLen, ControlByte;
    VarLenSize(|body|);
    var bs := FixedHeader(msgType, dup, qos, retain, |body|) + body;
    assert bs[1..] == VarLen(|body|) + body;
    LengthRead(|body|, 4, body);
  }

  /** The control byte, section 2.2: the type above, then DUP, QoS and RETAIN. */
  lemma FirstBytes()
    ensures ControlByte(CONNECT, 0, 0, 0) == 0x10
    ensures ControlByte(PUBACK, 0, 0, 0) == 0x40 && ControlByte(PUBREC, 0, 0, 0) == 0x50
    ensures ControlByte(PUBREL, 0, 1, 0) == 0x62 && ControlByte(PUBCOMP, 0, 0, 0) == 0x70
    ensures ControlByte(SUBSCRIBE, 0, 1, 0) == 0x82 && ControlByte(UNSUBSCRIBE, 0, 1, 0) == 0xA2
    ensures ControlByte(PINGREQ, 0, 0, 0) == 0xC0
    ensures ControlByte(CONNACK, 0, 0, 0) == 0x20 && ControlByte(SUBACK, 0, 0, 0) == 0x90
    ensures ControlByte(UNSUBACK, 0, 0, 0) == 0xB0 && ControlByte(PINGRESP, 0, 0, 0) == 0xD0
  {
  }

  lemma Bits(u: nat, p: nat, r: nat, q: nat, w: nat)
    requires u <= 1 && p <= 1 && r <= 1 && q <= 3 && w <= 1
    ensures var b := 128 * u + 64 * p + 32 * r + 8 * q + 4 * w + 2;
      && b / 128 % 2 == u && b / 64 % 2 == p && b / 32 % 2 == r && b / 8 % 4 == q
      && b / 4 % 2 == w && b / 2 % 2 == 1 && b % 2 == 0
  {
    var b := 128 * u + 64 * p + 32 * r + 8 * q + 4 * w + 2;
    assert b / 8 == 16 * u + 8 * p + 4 * r + q && b / 32 == 4 * u + 2 * p + r;
    assert b / 64 == 2 * u + p && b / 4 == 32 * u + 16 * p + 8 * r + 2 * q + w;
  }

  lemma FlagsRead(info: ConnectInfo)
    ensures FlagsOf(ConnectFlags(info))
         == Flags(info.user != [], info.pass != [],
                  info.will.Some? && info.will.value.retain, if info.will.Some? then info.will.value.qos % 4 else 0,
                  info.will.Some?, true, false)
  {
    var q := if info.will.Some? then info.will.value.qos % 4 else 0;
    Bits(if info.user != [] then 1 else 0, if info.pass != [] then 1 else 0,
         if info.will.Some? && info.will.value.retain then 1 else 0, q, if info.will.Some? then 1 else 0);
  }

  lemma OptionalRead(s: seq<byte>, rest: seq<byte>)
    requires |s| < 0x1_0000
    ensures ReadIf(s != [], OptionalStr(s) + rest) == Read(s, rest)
  {
    if s != [] {
      FieldRead(s, rest);
    } else {
      assert [] + rest == rest;
    }
  }

  /** What the packet says: quality of service 3 cannot be told apart from the two bits of a
      larger number. */
  function Told(info: ConnectInfo): ConnectInfo {
    if info.will.Some? then info.(will := Some(info.will.value.(qos := info.will.value.qos % 4))) else info
  }

  lemma PayloadRead(info: ConnectInfo)
    requires LengthsOk(info)
    ensures ReadPayload(FlagsOf(ConnectFlags(info)), info.keepAlive,
                        Str(info.clientId) + (WillStr(info.will) + (OptionalStr(info.user) + OptionalStr(info.pass))))
         == Some(Told(info))
  {
    hide ReadField, Str, ReadIf, OptionalStr, FlagsOf, ConnectFlags;
    FlagsRead(info);
    var u, p := OptionalStr(info.user), OptionalStr(info.pass);
    FieldRead(info.clientId, WillStr(info.will) + (u + p));
    OptionalRead(info.user, p);
    assert p + [] == p;
    OptionalRead(info.pass, []);
    WillRead(info, u + p);
  }

  lemma WillRead(info: ConnectInfo, rest: seq<byte>)
    requires LengthsOk(info)
    ensures var topic := ReadIf(info.will.Some?, WillStr(info.will) + rest);
      && topic.Read?
      && ReadIf(info.will.Some?, topic.rest)
         == Read(if info.will.Some? then info.will.value.msg else [], rest)
      && topic.value == if info.will.Some? then info.will.value.topic else []
  {
    hide ReadField, Str;
    if info.will.Some? {
      var t, m := info.will.value.topic, info.will.value.msg;
      assert WillStr(info.will) + rest == Str(t) + (Str(m) + rest);
      FieldRead(t, Str(m) + rest);
      FieldRead(m, rest);
    } else {
      assert WillStr(info.will) + rest == rest;
    }
  }

  /** A reader of the standard finds in a CONNECT just what the application told, with a clean
      session. */
  lemma ConnectRead(info: ConnectInfo)
    requires LengthsOk(info)
    ensures ReadConnect(ConnectBytes(info)) == Some(Connecting(FlagsOf(ConnectFlags(info)), Told(info)))
    ensures FlagsOf(ConnectFlags(info)).clean
  {
    hide ReadField, ReadFrame, ReadPayload, Str, FlagsOf, ConnectFlags, FixedHeader;
    FlagsRead(info);
    FrameRead(CONNECT, 0, 0, 0, ConnectBody(info));
    FirstBytes();
    BodyParts(info);
  }

  lemma BodyParts(info: ConnectInfo)
    requires LengthsOk(info)
    ensures var rest := Str(info.clientId) + (WillStr(info.will) + (OptionalStr(info.user) + OptionalStr(info.pass)));
      var name := ReadField(ConnectBody(info));
      && name == Read([0x4D, 0x51, 0x54, 0x54], [4, ConnectFlags(info)] + (U16(info.keepAlive) + rest))
      && name.rest[2..] == U16(info.keepAlive) + rest
      && ReadNumber(name.rest[2..]) == Read(info.keepAlive, rest)
      && ReadPayload(FlagsOf(ConnectFlags(info)), info.keepAlive, rest) == Some(Told(info))
  {
    hide ReadField, ReadPayload, ReadNumber, Str, U16, FlagsOf, ConnectFlags;
    var rest := Str(info.clientId) + (WillStr(info.will) + (OptionalStr(info.user) + OptionalStr(info.pass)));
    var more := [4, ConnectFlags(info)] + (U16(info.keepAlive) + rest);
    BodyJoin(info);
    FieldRead(PROTOCOL, more);
    assert more[2..] == U16(info.keepAlive) + rest;
    NumberRead(info.keepAlive, rest);
    PayloadRead(info);
  }

  lemma BodyJoin(info: ConnectInfo)
    requires LengthsOk(info)
    ensures ConnectBody(info)
         == Str(PROTOCOL) + ([4, ConnectFlags(info)] + (U16(info.keepAlive)
            + (Str(info.clientId) + (WillStr(info.will) + (OptionalStr(info.user) + OptionalStr(info.pass))))))
  {
    hide Str, WillStr, OptionalStr, ConnectFlags, U16;
  }

  /** The packet keeps the rules of the standard exactly if the quality of service of the will
      is below 3 and there is no password without a user name; then it says exactly what the
      application told. */
  lemma ConnectAllowedIff(info: ConnectInfo)
    requires LengthsOk(info)
    ensures var r := ReadConnect(ConnectBytes(info));
      && r.Some?
      && (Allowed(r.value.flags) <==>
            (info.will.Some? ==> info.will.value.qos % 4 != 3) && (info.pass != [] ==> info.user != []))
      && (r.value.info == info <==> (info.will.Some? ==> info.will.value.qos < 4))
  {
    hide ReadConnect, ConnectBytes, FlagsOf, ConnectFlags;
    ConnectRead(info);
    FlagsRead(info);
  }

  /** PUBLISH, section 3.3: type 3, a topic, an identifier unless the quality of service is 0,
      and the payload. */
  datatype Publishing = Publishing(dup: bool, qos: nat, retain: bool, topic: seq<byte>, pktId: u16, payload: seq<byte>)

  function ReadPublish(bs: seq<byte>): Option<Publishing> {
    var frame := ReadFrame(bs);
    if frame.NoFrame? || frame.first / 16 != 3 || frame.first / 2 % 4 == 3 then None
    else
      var topic, qos := ReadField(frame.body), frame.first / 2 % 4;
      if topic.Malformed? then None
      else
        var id := if qos == 0 then Read(0, topic.rest) else ReadNumber(topic.rest);
        if id.Malformed? then None
        else Some(Publishing(frame.first / 8 % 2 == 1, qos, frame.first % 2 == 1, topic.value, id.value, id.rest))
  }

  /** PUBACK, PUBREC, PUBREL, PUBCOMP and UNSUBACK, sections 3.4 to 3.7 and 3.11: an identifier
      and nothing else. */
  datatype Kind = Puback | Pubrec | Pubrel | Pubcomp | Unsuback

  function KindOf(first: byte): Option<Kind> {
    match first
    case 0x40 => Some(Puback)
    case 0x50 => Some(Pubrec)
    case 0x62 => Some(Pubrel)
    case 0x70 => Some(Pubcomp)
    case 0xB0 => Some(Unsuback)
    case _ => None
  }

  datatype Numbered = Numbered(kind: Kind, pktId: u16)

  function ReadNumbered(bs: seq<byte>): Option<Numbered> {
    var frame := ReadFrame(bs);
    if frame.NoFrame? || KindOf(frame.first).None? then None
    else
      match ReadNumber(frame.body)
      case Read(id, rest) => if rest == [] then Some(Numbered(KindOf(frame.first).value, id)) else None
      case Malformed => None
  }

  /** SUBSCRIBE and UNSUBSCRIBE for one topic, sections 3.8 and 3.10; only the first asks for a
      quality of service. */
  datatype Asking = Asking(pktId: u16, topic: seq<byte>, qos: Option<byte>)

  function ReadAsking(bs: seq<byte>): Option<Asking> {
    var frame := ReadFrame(bs);
    if frame.NoFrame? || frame.first !in {0x82, 0xA2} then None
    else
      var id := ReadNumber(frame.body);
      if id.Malformed? then None
      else
        var topic := ReadField(id.rest);
        if topic.Malformed? then None
        else if frame.first == 0xA2 then (if topic.rest == [] then Some(Asking(id.value, topic.value, None)) else None)
        else if |topic.rest| == 1 && topic.rest[0] < 3 then Some(Asking(id.value, topic.value, Some(topic.rest[0])))
        else None
  }

  /** The first byte of a PUBLISH. */
  lemma PublishFirst(dup: nat, qos: nat, retain: nat)
    requires dup <= 1 && qos <= 2 && retain <= 1
    ensures var b := ControlByte(PUBLISH, dup, qos, retain);
      b / 16 == 3 && b / 8 % 2 == dup && b / 2 % 4 == qos && b % 2 == retain
  {
    var b := ControlByte(PUBLISH, dup, qos, retain);
    assert b == 48 + 8 * dup + 2 * qos + retain;
    assert b / 8 == 6 + dup && b / 2 == 24 + 4 * dup + qos;
  }

  /** A PUBLISH is read as what was published. */
  lemma PublishRead(dup: nat, qos: nat, retain: nat, topic: seq<byte>, pktId: u16, payload: seq<byte>)
    requires dup <= 1 && qos <= 2 && retain <= 1 && |topic| < 0x1_0000
    requires var body := Str(topic) + (if qos > 0 then U16(pktId) else []) + payload; |body| <= MAX_BODY
    ensures var body := Str(topic) + (if qos > 0 then U16(pktId) else []) + payload;
      ReadPublish(FixedHeader(PUBLISH, dup, qos, retain, |body|) + body)
      == Some(Publishing(dup == 1, qos, retain == 1, topic, if qos > 0 then pktId else 0, payload))
  {
    hide ReadField, ReadFrame, ReadNumber, Str, U16, FixedHeader, ControlByte;
    var id := if qos > 0 then U16(pktId) else [];
    var body := Str(topic) + id + payload;
    FrameRead(PUBLISH, dup, qos, retain, body);
    PublishFirst(dup, qos, retain);
    Assoc(Str(topic), id, payload);
    FieldRead(topic, id + payload);
    NumberRead(pktId, payload);
    assert [] + payload == payload;
  }

  lemma PublishBytesRead(topic: seq<byte>, payload: seq<byte>, qos: nat, retain: nat, pktId: u16)
    requires |payload| < 0x1_0000 && PublishLength(topic, |payload|, qos) < 0x1_0000 && qos <= 2 && retain <= 1
    ensures ReadPublish(PublishBytes(topic, Some(payload), |payload|, qos, retain, pktId))
         == Some(Publishing(false, qos, retain == 1, topic, if qos > 0 then pktId else 0, payload))
  {
    hide ReadPublish, FixedHeader;
    assert payload[..|payload|] == payload;
    PublishRead(0, qos, retain, topic, pktId, payload);
  }

  lemma StrLength(s: seq<byte>)
    requires |s| < 0x1_0000
    ensures |Str(s)| == 2 + |s|
  {
  }

  /** SUBSCRIBE and UNSUBSCRIBE are read as what was asked. */
  lemma AskingRead(topic: seq<byte>, qos: nat, sub: bool, pktId: u16)
    requires SubscribeLength(topic, sub) < 0x1_0000 && qos < 3
    ensures ReadAsking(SubscribeBytes(topic, qos, sub, pktId))
         == Some(Asking(pktId, topic, if sub then Some(qos) else None))
  {
    hide ReadField, ReadFrame, ReadNumber, Str, U16, FixedHeader;
    var last: seq<byte> := if sub then [qos] else [];
    StrLength(topic);
    FrameRead(if sub then SUBSCRIBE else UNSUBSCRIBE, 0, 1, 0, U16(pktId) + Str(topic) + last);
    FirstBytes();
    Assoc(U16(pktId), Str(topic), last);
    NumberRead(pktId, Str(topic) + last);
    FieldRead(topic, last);
  }

  function TypeOf(kind: Kind): nat {
    match kind
    case Puback => PUBACK
    case Pubrec => PUBREC
    case Pubrel => PUBREL
    case Pubcomp => PUBCOMP
    case Unsuback => UNSUBACK
  }

  lemma NumberedRead(kind: Kind, pktId: u16)
    ensures ReadNumbered(FixedHeader(TypeOf(kind), 0, if kind == Pubrel then 1 else 0, 0, 2) + U16(pktId))
         == Some(Numbered(kind, pktId))
  {
    hide ReadFrame, ReadNumber, U16, FixedHeader;
    FrameRead(TypeOf(kind), 0, if kind == Pubrel then 1 else 0, 0, U16(pktId));
    FirstBytes();
    assert U16(pktId) + [] == U16(pktId);
    NumberRead(pktId, []);
  }

  /** The acknowledgements the client sends, and the ones it is fed. */
  lemma AckRead(pktId: u16)
    ensures ReadNumbered(Ack(PUBACK, pktId, 0)) == Some(Numbered(Puback, pktId))
    ensures ReadNumbered(Ack(PUBREC, pktId, 0)) == Some(Numbered(Pubrec, pktId))
    ensures ReadNumbered(Ack(PUBREL, pktId, 1)) == Some(Numbered(Pubrel, pktId))
    ensures ReadNumbered(Ack(PUBCOMP, pktId, 0)) == Some(Numbered(Pubcomp, pktId))
  {
    hide ReadNumbered, FixedHeader;
    NumberedRead(Puback, pktId);
    NumberedRead(Pubrec, pktId);
    NumberedRead(Pubrel, pktId);
    NumberedRead(Pubcomp, pktId);
  }

  /** Packets of a server. A reader of the standard finds in the bytes that the client is fed
      what the packet says. */
  lemma ServerRead(p: Packet)
    requires WellFormed(p)
    ensures match p
      case Publish(dup, qos, retain, topic, id, payload) =>
        ReadPublish(Encode(p)) == Some(Publishing(dup == 1, qos, retain == 1, topic, if qos > 0 then id else 0, payload))
      case Reply(msgType, id) =>
        ReadNumbered(Encode(p)) == Some(Numbered(ReplyKind(msgType), id))
      case Connack(flags) => ReadFrame(Encode(p)) == Frame(0x20, [flags, 0])
      case Suback(id, code) => ReadFrame(Encode(p)) == Frame(0x90, U16(id) + [code])
      case Pingresp => Encode(p) == [0xD0, 0]
  {
    hide ReadPublish, ReadNumbered, ReadFrame, FixedHeader, ControlByte;
    FirstBytes();
    match p
    case Publish(dup, qos, retain, topic, id, payload) =>
      PublishRead(dup, qos, retain, topic, id, payload);
    case Reply(msgType, id) =>
      assert U16(id) + [] == U16(id);
      NumberedRead(ReplyKind(msgType), id);
    case Connack(flags) =>
      assert Head(p) + Tail(p) == [flags, 0];
      FrameRead(CONNACK, 0, 0, 0, [flags, 0]);
    case Suback(id, code) =>
      assert Head(p) + Tail(p) == U16(id) + [code];
      FrameRead(SUBACK, 0, 0, 0, U16(id) + [code]);
    case Pingresp => PingrespBytes();
  }

  lemma PingrespBytes()
    ensures Encode(Pingresp) == [0xD0, 0]
  {
    FirstBytes();
    assert VarLen(0) == [0];
  }

  function ReplyKind(msgType: nat): Kind {
    if msgType == PUBACK then Puback
    else if msgType == PUBREC then Pubrec
    else if msgType == PUBREL then Pubrel
    else if msgType == PUBCOMP then Pubcomp
    else Unsuback
  }

  /** Quality of service, section 4.3, on the wire: a PUBLISH of level 1 is answered by PUBACK,
      one of level 2 by PUBREC, a PUBREL by PUBCOMP, a PUBREC by PUBREL, and nothing else is
      answered; the answer carries the identifier of the packet. */
  function AnswerTo(p: Packet): Option<Numbered> {
    match p
    case Publish(_, qos, _, _, id, _) =>
      if qos == 1 then Some(Numbered(Puback, id)) else if qos == 2 then Some(Numbered(Pubrec, id)) else None
    case Reply(msgType, id) =>
      if ReplyKind(msgType) == Pubrec then Some(Numbered(Pubrel, id))
      else if ReplyKind(msgType) == Pubrel then Some(Numbered(Pubcomp, id))
      else None
    case _ => None
  }

  /** The answers among what is reported, as a reader of the standard sees them. */
  function Answers(items: seq<Item>): seq<Option<Numbered>> {
    if items == [] then []
    else
      (if items[0].Other? && items[0].e.Respond? then
         [ReadNumbered(Ack(items[0].e.msgType, items[0].e.pktId, items[0].e.qos))]
       else [])
      + Answers(items[1..])
  }

  lemma {:induction false} AnswersConcat(a: seq<Item>, b: seq<Item>)
    ensures Answers(a + b) == Answers(a) + Answers(b)
    decreases |a|
  {
    hide ReadNumbered, Ack;
    if a == [] {
      assert a + b == b;
    } else {
      assert (a + b)[1..] == a[1..] + b;
      AnswersConcat(a[1..], b);
    }
  }

  /** A packet that is fed whole is answered as its quality of service demands. */
  lemma PacketAnswered(p: Packet, ss: Session)
    requires WellFormed(p) && FitsBuffer(p)
    ensures var o := Feed(Header([]), ss, Encode(p));
      o.status.Accepted? && Answers(Items(o.events)) == if AnswerTo(p).Some? then [AnswerTo(p)] else []
  {
    hide Feed, Encode, Items, Answers;
    PacketFed(p, ss);
    ReportsAnswered(p, ss);
  }

  lemma ReportsAnswered(p: Packet, ss: Session)
    requires WellFormed(p)
    ensures Answers(Reports(ss, p)) == if AnswerTo(p).Some? then [AnswerTo(p)] else []
  {
    hide ReadNumbered, Ack;
    match p
    case Publish(_, qos, _, topic, id, payload) =>
      var head, end: seq<Item> := [Other(Announce(topic, |payload|))], EndItems(qos, if qos > 0 then id else 0);
      AnswersConcat(head, PayloadItems(payload) + end);
      AnswersConcat(PayloadItems(payload), end);
      PayloadSilent(payload);
      AckRead(id);
      assert head[1..] == [] && [EndOfPayload][1..] == [];
      assert end[1..] == if qos > 0 then [Other(Respond(if qos == 1 then PUBACK else PUBREC, id, 0))] else [];
      assert qos > 0 ==> end[1..][1..] == [];
    case Reply(msgType, id) =>
      AckRead(id);
      FewItems(Reports(ss, p));
    case _ => FewItems(Reports(ss, p));
  }

  lemma FewItems(items: seq<Item>)
    requires |items| <= 1
    ensures Answers(items) == if items != [] && items[0].Other? && items[0].e.Respond? then
      [ReadNumbered(Ack(items[0].e.msgType, items[0].e.pktId, items[0].e.qos))] else []
  {
  }

  lemma {:induction false} PayloadSilent(payload: seq<byte>)
    ensures Answers(PayloadItems(payload)) == []
  {
    if payload != [] {
      assert PayloadItems(payload)[1..] == PayloadItems(payload[1..]);
      PayloadSilent(payload[1..]);
    }
  }

  /** The answer to the connection request, section 3.2: code 0 opens the connection, and any
      other refuses it. */
  lemma ConnackAnswered(ss: Session, flags: byte, code: byte)
    requires ss.conn == MqttConnecting
    ensures var o := Feed(Header([]), ss, [0x20, 0x02] + [flags, code]);
      if code == 0 then o == Outcome(Header([]), ss.(conn := MqttConnected, cyclicTick := 0), [ConnectionUp], Accepted)
      else o.session == ss && o.events == [] && o.status == Refused(code)
  {
    hide Feed, BodyLen, Whole, Handle;
    var h: seq<byte>, body: seq<byte> := [0x20, 0x02], [flags, code];
    ConnackHeader();
    FeedHeader(h, ss);
    CutAtRest(Header([]), ss, h, body);
    AfterAfter([], [], Feed(Body(h, 0), ss, body));
    SmallBody(h, ss, body);
    ConnackHandled(ss, flags, code);
  }

  lemma ConnackHeader()
    ensures Whole([0x20, 0x02]) && BodyLen([0x20, 0x02]) == 2 && PacketType(0x20) == 2
  {
    assert [0x20 as byte, 0x02][1..] == [0x02];
    assert [0x20 as byte, 0x02][..1] == [0x20];
  }

  lemma ConnackHandled(ss: Session, flags: byte, code: byte)
    requires ss.conn == MqttConnecting
    ensures Handle(ss, 0x20, 2, true, [flags, code], 0)
         == if code == 0 then Handled(ss.(conn := MqttConnected, cyclicTick := 0), [ConnectionUp], Accepted)
            else Handled(ss, [], Refused(code))
  {
    ConnackHeader();
  }
}
