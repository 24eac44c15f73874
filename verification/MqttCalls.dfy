/** The packets that the application's calls put into the output ring
    (libraries/mqtt_patched.c, lines 1108 to 1240 and 1294 to 1440), and what the client's own
    parser makes of a published one. */
module MqttCalls {
  import opened Bytes
  import opened MqttMessages
  import opened MqttReceive
  import opened MqttSegments
  import opened MqttStreams

  datatype Err = Ok | ErrConn | ErrArg | ErrMem | ErrVal | ErrIsConn | ErrTcp

  /** The next packet identifier, never 0. */
  function NextPktId(seqNo: u16): (id: u16)
    ensures id != 0 && id != seqNo
  {
    var n := (seqNo + 1) % 0x1_0000;
    if n == 0 then 1 else n
  }

  function PublishLength(topic: seq<byte>, payloadLength: u16, qos: nat): nat {
    2 + |topic| + payloadLength + if qos > 0 then 2 else 0
  }

  /** Payload bytes that are appended: none for a null pointer, whatever the length says. */
  function Given(payload: Option<seq<byte>>, payloadLength: u16): seq<byte>
    requires payload.Some? ==> payloadLength <= |payload.value|
  {
    if payload.Some? then payload.value[..payloadLength] else []
  }

  function PublishBytes(topic: seq<byte>, payload: Option<seq<byte>>, payloadLength: u16,
                        qos: nat, retain: nat, pktId: u16): seq<byte>
    requires PublishLength(topic, payloadLength, qos) < 0x1_0000
    requires payload.Some? ==> payloadLength <= |payload.value|
  {
    FixedHeader(PUBLISH, 0, qos, retain, PublishLength(topic, payloadLength, qos))
    + (Str(topic) + (if qos > 0 then U16(pktId) else []) + Given(payload, payloadLength))
  }

  /** The bytes appended are as many as the space check reserved, unless a null payload comes
      with a length. */
  lemma PublishReserved(topic: seq<byte>, payload: Option<seq<byte>>, payloadLength: u16,
                        qos: nat, retain: nat, pktId: u16)
    requires PublishLength(topic, payloadLength, qos) < 0x1_0000
    requires payload.Some? ==> payloadLength <= |payload.value|
    ensures |PublishBytes(topic, payload, payloadLength, qos, retain, pktId)|
         == MessageSize(PublishLength(topic, payloadLength, qos))
         <==> payload.Some? || payloadLength == 0
  {
  }

  /** The packet a call publishes. */
  function Published(topic: seq<byte>, payload: seq<byte>, qos: nat, retain: nat, pktId: u16): Packet {
    Packet.Publish(0, qos, retain, topic, pktId, payload)
  }

  /** Publish and receive are inverse. The bytes of a publish, fed to the parser, are accepted
      exactly when header, topic and identifier (or terminator) fit the receive buffer; then
      they announce the same topic and length once and yield the same payload. */
  lemma PublishReceived(topic: seq<byte>, payload: seq<byte>, qos: nat, retain: nat, pktId: u16, ss: Session)
    requires |payload| < 0x1_0000 && PublishLength(topic, |payload|, qos) < 0x1_0000
    requires qos <= 2 && retain <= 1
    ensures var p := Published(topic, payload, qos, retain, pktId);
      var bytes := PublishBytes(topic, Some(payload), |payload|, qos, retain, pktId);
      var o := Feed(Header([]), ss, bytes);
      && WellFormed(p) && bytes == Encode(p)
      && (o.status.Accepted? <==> |bytes| - |payload| + (if qos > 0 then 0 else 1) <= BUFFER_LEN)
      && (o.status.Accepted? ==>
            && o.phase == Header([])
            && o.session == ss.(inpubPktId := if qos > 0 then pktId else 0)
            && Items(o.events) == [Other(Announce(topic, |payload|))]
                                + (PayloadItems(payload) + EndItems(qos, if qos > 0 then pktId else 0)))
  {
    hide Feed, Items, PayloadItems, EndItems, FixedHeader;
    var p := Published(topic, payload, qos, retain, pktId);
    assert payload[..|payload|] == payload;
    PacketFed(p, ss);
  }

  function SubscribeLength(topic: seq<byte>, sub: bool): nat {
    |topic| + 2 + 2 + if sub then 1 else 0
  }

  /** SUBSCRIBE and UNSUBSCRIBE, sections 3.8 and 3.10 of MQTT 3.1.1. */
  function SubscribeBytes(topic: seq<byte>, qos: nat, sub: bool, pktId: u16): (bs: seq<byte>)
    requires SubscribeLength(topic, sub) < 0x1_0000 && qos < 3
    ensures |bs| == MessageSize(SubscribeLength(topic, sub))
  {
    FixedHeader(if sub then SUBSCRIBE else UNSUBSCRIBE, 0, 1, 0, SubscribeLength(topic, sub))
    + (U16(pktId) + Str(topic) + if sub then [qos] else [])
  }

  datatype Will = Will(topic: seq<byte>, msg: seq<byte>, qos: nat, retain: bool)

  /** What the application tells about itself; empty user names and passwords count as none. */
  datatype ConnectInfo = ConnectInfo(clientId: seq<byte>, keepAlive: u16, will: Option<Will>,
                                     user: seq<byte>, pass: seq<byte>)

  predicate LengthsOk(info: ConnectInfo) {
    && (info.will.Some? ==> 0 < |info.will.value.topic| <= 0xFF && |info.will.value.msg| <= 0xFF)
    && ConnectLength(info) <= 0xFFFF
  }

  function Optional(s: seq<byte>): nat {
    if s == [] then 0 else 2 + |s|
  }

  function ConnectLength(info: ConnectInfo): nat {
    10 + (if info.will.Some? then 2 + |info.will.value.topic| + 2 + |info.will.value.msg| else 0)
    + Optional(info.user) + Optional(info.pass) + 2 + |info.clientId|
  }

  /** Connect flags, section 3.1.2.3 of MQTT 3.1.1: a clean session always. */
  function ConnectFlags(info: ConnectInfo): byte {
    (if info.will.Some? then 4 + (info.will.value.qos % 4) * 8 + (if info.will.value.retain then 32 else 0) else 0)
    + (if info.user != [] then 128 else 0) + (if info.pass != [] then 64 else 0) + 2
  }

  const PROTOCOL: seq<byte> := [77, 81, 84, 84]

  function OptionalStr(s: seq<byte>): seq<byte>
    requires |s| < 0x1_0000
  {
    if s == [] then [] else Str(s)
  }

  function WillStr(will: Option<Will>): seq<byte>
    requires will.Some? ==> |will.value.topic| <= 0xFF && |will.value.msg| <= 0xFF
  {
    if will.Some? then Str(will.value.topic) + Str(will.value.msg) else []
  }

  function ConnectBody(info: ConnectInfo): (bs: seq<byte>)
    requires LengthsOk(info)
    ensures |bs| == ConnectLength(info)
  {
    Str(PROTOCOL) + [4] + [ConnectFlags(info)] + U16(info.keepAlive) + Str(info.clientId)
    + WillStr(info.will) + OptionalStr(info.user) + OptionalStr(info.pass)
  }

  /** CONNECT, section 3.1 of MQTT 3.1.1: exactly the bytes that were checked for. */
  function ConnectBytes(info: ConnectInfo): (bs: seq<byte>)
    requires LengthsOk(info)
    ensures |bs| == MessageSize(ConnectLength(info))
  {
    FixedHeader(CONNECT, 0, 0, 0, ConnectLength(info)) + ConnectBody(info)
  }
}
