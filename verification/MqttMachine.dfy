/** The MQTT client as a machine over values: what each call and each event makes of its state
    and of its history (libraries/mqtt_patched.c, lines 541 to 1469). Class MqttClient.Client
    moves as this machine does. Where TCP decides how much it takes, more than one move is
    possible. */
module MqttMachine {
  import opened Bytes
  import opened MqttRing
  import opened MqttMessages
  import opened MqttDeadlines
  import opened MqttRequests
  import opened MqttReceive
  import opened MqttAccounts
  import opened MqttCalls
  import opened MqttOutput

  /** Seconds the server has to answer a connection request (src/win32/stubs/lwip/mqtt_opts.h). */
  const CONNECT_TIMEOUT := 100

  /** What can happen to a client. */
  datatype Input =
    | Publish(topic: seq<byte>, payload: Option<seq<byte>>, length: u16, qos: nat, retain: nat, cb: Callback)
    | SubUnsub(topic: seq<byte>, qos: nat, cb: Callback, sub: bool)
    | Connect(info: ConnectInfo, pcbOk: bool, bindOk: bool, connectOk: bool)
    | Disconnect
    | Received(segment: Option<seq<byte>>, errOk: bool)
    | Sent
    | Poll
    | Failed
    | Established(errOk: bool)
    | Tick

  /** State and history of a client. */
  datatype View = View(session: Session, phase: Phase, out: Output, events: seq<Event>,
                       accepted: multiset<nat>, dropped: multiset<nat>,
                       keepAlive: u16, watchdog: u16, pktIdSeq: u16)

  function Plus1(n: u16): u16 {
    (n + 1) % 0x1_0000
  }

  /** The end of a connection: what is pending is given up. */
  function Closed(v: View, told: bool): View {
    v.(session := v.session.(conn := TcpDisconnected, pending := []),
       events := v.events + (if told then [ConnectionDown] else []),
       dropped := v.dropped + multiset(Callbacks(v.session.pending)))
  }

  /** A request goes out and waits. */
  function Requested(v: View, id: u16, cb: Callback, bytes: seq<byte>): View {
    v.(session := v.session.(pending := Append(v.session.pending, id, cb)),
       out := Put(v.out, bytes),
       accepted := v.accepted + multiset(CallbackOf(Pending(id, cb, REQ_TIMEOUT))))
  }

  /** Sixteen requests pending, or no room for the message. */
  predicate NoRoom(v: View, rLength: u16) {
    |v.session.pending| == REQ_MAX || !AdmitsAt(v.out.held, rLength)
  }

  function PublishErr(v: View, topic: seq<byte>, length: u16, qos: nat): Err {
    var n := PublishLength(topic, length, qos);
    if v.session.conn == TcpDisconnected then ErrConn
    else if |topic| > 0xFFFD || n > 0xFFFF then ErrArg
    else if NoRoom(v, n) then ErrMem
    else Ok
  }

  /** The identifier of a publish is used up even if there is no room for it. */
  function AfterPublish(v: View, topic: seq<byte>, payload: Option<seq<byte>>, length: u16,
                        qos: nat, retain: nat, cb: Callback): View
    requires payload.Some? ==> length <= |payload.value|
  {
    var numbered := v.session.conn != TcpDisconnected && |topic| <= 0xFFFD && qos > 0;
    var w := if numbered then v.(pktIdSeq := NextPktId(v.pktIdSeq)) else v;
    var id := if qos > 0 then w.pktIdSeq else 0;
    if PublishErr(v, topic, length, qos) != Ok then w
    else Requested(w, id, cb, PublishBytes(topic, payload, length, qos, retain, id))
  }

  function SubUnsubErr(v: View, topic: seq<byte>, sub: bool): Err {
    var n := SubscribeLength(topic, sub);
    if |topic| > 0xFFFD || n > 0xFFFF then ErrArg
    else if v.session.conn == TcpDisconnected then ErrConn
    else if NoRoom(v, n) then ErrMem
    else Ok
  }

  function AfterSubUnsub(v: View, topic: seq<byte>, qos: nat, cb: Callback, sub: bool): View
    requires qos < 3
  {
    var err := SubUnsubErr(v, topic, sub);
    var w := if err in {Ok, ErrMem} then v.(pktIdSeq := NextPktId(v.pktIdSeq)) else v;
    if err != Ok then w
    else Requested(w, w.pktIdSeq, cb, SubscribeBytes(topic, qos, sub, w.pktIdSeq))
  }

  function ConnectErr(v: View, info: ConnectInfo, pcbOk: bool, bindOk: bool, connectOk: bool): Err {
    if v.session.conn != TcpDisconnected then ErrIsConn
    else if !LengthsOk(info) then ErrVal
    else if !AdmitsAt(0, ConnectLength(info)) || !pcbOk then ErrMem
    else if !bindOk || !connectOk then ErrTcp
    else Ok
  }

  /** A connection attempt wipes the client first. */
  function AfterConnect(v: View, info: ConnectInfo, pcbOk: bool, bindOk: bool, connectOk: bool): View {
    var err := ConnectErr(v, info, pcbOk, bindOk, connectOk);
    if err == ErrIsConn then v
    else
      v.(session := Session(if err == Ok then TcpConnecting else TcpDisconnected, 0, 0, []),
         out := if err == Ok then Put(NO_OUTPUT, ConnectBytes(info)) else NO_OUTPUT,
         keepAlive := info.keepAlive, watchdog := 0, pktIdSeq := 0)
  }

  /** A segment that the parser has been through. */
  function Parsed(v: View, o: Outcome, out: Output): View {
    v.(session := o.session, phase := o.phase, out := out, events := v.events + o.events,
       dropped := v.dropped + Lost(o.events, v.session.pending, o.session.pending))
  }

  function Heard(v: View): View {
    v.(watchdog := if v.keepAlive != 0 then 0 else v.watchdog)
  }

  /** A segment, `None` for the end of the connection, or an error. */
  ghost predicate ReceivedMoves(a: View, segment: Option<seq<byte>>, errOk: bool, b: View) {
    if segment.None? then b == Closed(a, true)
    else if !errOk then b == a
    else
      && ValidPhase(a.phase)
      && var o := Feed(a.phase, a.session, segment.value);
        && !o.status.Overlong? && Answered(a.out, b.out, o.events)
        && var v := Parsed(a, o, b.out);
          b == Heard(if o.status.Accepted? then v else Closed(v, true))
  }

  /** TCP takes some of what is in the ring, and nothing else happens. */
  predicate SendMoves(a: View, b: View) {
    Sends(a.out, b.out) && b == a.(out := b.out)
  }

  /** TCP has sent something: requests without identifier are complete. */
  function Completed0(v: View): View {
    v.(session := v.session.(cyclicTick := 0, pending := Numbered(v.session.pending)),
       events := v.events + SentEvents(Unnumbered(v.session.pending)), watchdog := 0)
  }

  function Opened(v: View): View {
    v.(session := v.session.(conn := MqttConnecting, cyclicTick := 0), phase := Header([]))
  }

  /** A tick while the server has not answered yet. */
  function AfterConnectTick(v: View): View {
    var w := v.(session := v.session.(cyclicTick := Plus1(v.session.cyclicTick)));
    if w.session.cyclicTick * CYCLIC_INTERVAL >= CONNECT_TIMEOUT then Closed(w, true) else w
  }

  function Elapsed(v: View): View {
    v.(session := v.session.(pending := Elapse(v.session.pending, CYCLIC_INTERVAL)),
       events := v.events + TimeoutEvents(Timeouts(v.session.pending, CYCLIC_INTERVAL)))
  }

  /** A count of ticks without a word from the server is too long. */
  predicate Silent(watchdog: u16, keepAlive: u16) {
    watchdog * CYCLIC_INTERVAL > keepAlive + keepAlive / 2
  }

  predicate PingDue(tick: u16, keepAlive: u16, held: nat) {
    Plus1(tick) * CYCLIC_INTERVAL >= keepAlive && AdmitsAt(held, 0)
  }

  /** Silence for more than one and a half keep-alive times ends the connection. */
  function Watched(v: View): View {
    var w := v.(watchdog := Plus1(v.watchdog));
    if Silent(w.watchdog, v.keepAlive) then Closed(w, true) else w
  }

  /** A ping goes out after a keep-alive time without sending, if it fits, even on a connection
      that has just been closed. */
  function Pinged(v: View): View {
    if PingDue(v.session.cyclicTick, v.keepAlive, v.out.held) then
      v.(session := v.session.(cyclicTick := 0), out := Put(v.out, FixedHeader(PINGREQ, 0, 0, 0, 0)))
    else v.(session := v.session.(cyclicTick := Plus1(v.session.cyclicTick)))
  }

  function AfterConnectedTick(v: View): View {
    if v.keepAlive > 0 then Pinged(Watched(Elapsed(v))) else Elapsed(v)
  }

  function AfterTick(v: View): View {
    if v.session.conn == MqttConnecting then AfterConnectTick(v)
    else if v.session.conn == MqttConnected then AfterConnectedTick(v)
    else v
  }

  /** Inputs the client is not open to: TCP and the timer call back only while they are
      registered, and arguments keep the bounds the source asserts. */
  predicate Possible(v: View, i: Input) {
    match i
    case Publish(_, payload, length, _, _, _) => payload.Some? ==> length <= |payload.value|
    case SubUnsub(_, qos, _, _) => qos < 3
    case Received(segment, _) => Up(v.session.conn) && (segment.Some? ==> |segment.value| < 0x1_0000)
    case Failed => v.session.conn != TcpDisconnected
    case Established(_) => v.session.conn == TcpConnecting
    case Tick => Up(v.session.conn)
    case _ => true
  }

  /** One input takes the client from `a` to `b` and returns `err`. */
  ghost predicate Moves(a: View, i: Input, err: Err, b: View) {
    if !Possible(a, i) then b == a && err == ErrArg
    else
      match i
      case Publish(topic, payload, length, qos, retain, cb) =>
        err == PublishErr(a, topic, length, qos) && b == AfterPublish(a, topic, payload, length, qos, retain, cb)
      case SubUnsub(topic, qos, cb, sub) =>
        err == SubUnsubErr(a, topic, sub) && b == AfterSubUnsub(a, topic, qos, cb, sub)
      case Connect(info, pcbOk, bindOk, connectOk) =>
        err == ConnectErr(a, info, pcbOk, bindOk, connectOk) && b == AfterConnect(a, info, pcbOk, bindOk, connectOk)
      case Disconnect => err == Ok && b == if a.session.conn == TcpDisconnected then a else Closed(a, false)
      case Received(segment, errOk) => err == Ok && ReceivedMoves(a, segment, errOk, b)
      case Sent => err == Ok && if a.session.conn == MqttConnected then SendMoves(Completed0(a), b) else b == a
      case Poll => err == Ok && if a.session.conn == MqttConnected then SendMoves(a, b) else b == a
      case Failed => err == Ok && b == Closed(a, true)
      case Established(errOk) => err == Ok && if errOk then SendMoves(Opened(a), b) else b == a
      case Tick => err == Ok && b == AfterTick(a)
  }
}
