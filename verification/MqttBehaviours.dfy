/** Every run of the MQTT client's machine: what is sent, which callbacks are called, and when
    an unanswered request times out (libraries/mqtt_patched.c, lines 541 to 1469). */
module MqttBehaviours {
  import opened Bytes
  import opened MqttRing
  import opened MqttMessages
  import opened MqttDeadlines
  import opened MqttRequests
  import opened MqttReceive
  import opened MqttAccounts
  import opened MqttCalls
  import opened MqttOutput
  import opened MqttMachine

  /** What holds of a client's state and history between any two events. */
  ghost predicate Sound(v: View) {
    && Orderly(v.session.pending) && |v.session.pending| <= REQ_MAX
    && Balanced(v.accepted, v.events, v.session.pending, v.dropped)
    && v.out.held < RING_SIZE
    && (v.out.kept ==> v.out.wire <= v.out.queued && |v.out.queued| == |v.out.wire| + v.out.held)
    && (!v.out.kept ==> |v.out.wire| + v.out.held < |v.out.queued|)
  }

  /** A run: the views between the inputs, and what the calls among these return. */
  ghost predicate Behaviour(trace: seq<View>, inputs: seq<Input>, errs: seq<Err>) {
    && |trace| == |inputs| + 1 && |errs| == |inputs|
    && (forall k :: 0 <= k < |trace| ==> Sound(trace[k]))
    && (forall k {:trigger inputs[k]} :: 0 <= k < |inputs| ==> Moves(trace[k], inputs[k], errs[k], trace[k + 1]))
  }

  /** A connection attempt starts a new output stream. */
  predicate Wipes(i: Input, err: Err) {
    i.Connect? && err != ErrIsConn
  }

  /** The bytes that a move puts into the ring. */
  ghost function MessageOf(a: View, i: Input, err: Err, b: View): seq<byte>
    requires Moves(a, i, err, b)
  {
    if !Possible(a, i) || err != Ok then []
    else
      match i
      case Publish(topic, payload, length, qos, retain, _) =>
        PublishBytes(topic, payload, length, qos, retain, if qos > 0 then NextPktId(a.pktIdSeq) else 0)
      case SubUnsub(topic, qos, _, sub) => SubscribeBytes(topic, qos, sub, NextPktId(a.pktIdSeq))
      case Connect(info, _, _, _) => ConnectBytes(info)
      case Received(segment, errOk) =>
        if segment.Some? && errOk then
          AckBytes(Feed(a.phase, a.session, segment.value).events, b.out.grants[|a.out.grants|..])
        else []
      case Tick =>
        if a.session.conn == MqttConnected && a.keepAlive > 0 && PingDue(a.session.cyclicTick, a.keepAlive, a.out.held)
        then FixedHeader(PINGREQ, 0, 0, 0, 0) else []
      case _ => []
  }

  /** The callback of a call that has been accepted. */
  function CallbackAccepted(i: Input, err: Err): multiset<nat> {
    if err == Ok && (i.Publish? || i.SubUnsub?) && i.cb.Some? then multiset{i.cb.value} else multiset{}
  }

  /** `m` is put into the ring, perhaps of a new connection, and callbacks are accepted. What
      TCP has taken only grows while a connection lasts, and nothing is lost if the ring keeps
      a byte free. */
  ghost predicate Puts(a: View, wipes: bool, m: seq<byte>, accepted: multiset<nat>, b: View) {
    && b.accepted == a.accepted + accepted
    && b.out.queued == (if wipes then [] else a.out.queued) + m
    && (wipes || a.out.wire <= b.out.wire)
    && ((wipes || a.out.kept) && (if wipes then 0 else a.out.held) + |m| < RING_SIZE ==> b.out.kept)
  }

  lemma PutsRequest(a: View, w: View, id: u16, cb: Callback, m: seq<byte>)
    requires w == a.(pktIdSeq := w.pktIdSeq)
    ensures Puts(a, false, m, if cb.Some? then multiset{cb.value} else multiset{}, Requested(w, id, cb, m))
    ensures Puts(a, false, [], multiset{}, w)
  {
    hide MqttDeadlines.Append;
    assert a.out.queued + [] == a.out.queued;
  }

  lemma PutsNothing(a: View, b: View)
    requires b.out == a.out && b.accepted == a.accepted
    ensures Puts(a, false, [], multiset{}, b)
  {
    assert a.out.queued + [] == a.out.queued;
  }

  lemma PutsSend(a: View, b: View)
    requires Sends(a.out, b.out) && b.accepted == a.accepted
    ensures Puts(a, false, [], multiset{}, b)
  {
    assert a.out.queued + [] == a.out.queued;
  }

  lemma PutsTick(a: View)
    requires Possible(a, Tick)
    ensures Moves(a, Tick, Ok, AfterTick(a))
    ensures Puts(a, false, MessageOf(a, Tick, Ok, AfterTick(a)), multiset{}, AfterTick(a))
  {
    hide Elapse, Timeouts, TimeoutEvents, Callbacks, FixedHeader, PingDue, Silent;
    assert a.out.queued + [] == a.out.queued;
  }

  lemma PutsConnect(a: View, info: ConnectInfo, pcbOk: bool, bindOk: bool, connectOk: bool)
    requires a.session.conn == TcpDisconnected
    ensures var b := AfterConnect(a, info, pcbOk, bindOk, connectOk);
      Puts(a, true, if ConnectErr(a, info, pcbOk, bindOk, connectOk) == Ok then ConnectBytes(info) else [], multiset{}, b)
  {
    hide ConnectBytes, LengthsOk, AdmitsAt;
    if LengthsOk(info) {
      assert [] + ConnectBytes(info) == ConnectBytes(info);
    }
  }

  lemma PutsReceived(a: View, segment: Option<seq<byte>>, errOk: bool, b: View)
    requires Moves(a, Received(segment, errOk), Ok, b) && Possible(a, Received(segment, errOk))
    ensures Puts(a, false, MessageOf(a, Received(segment, errOk), Ok, b), multiset{}, b)
  {
    hide Feed, AckBytes, Responses, Lost, Callbacks;
    assert a.out.queued + [] == a.out.queued;
  }

  /** What one move does to the output stream and to the account of callbacks. */
  lemma MovePuts(a: View, i: Input, err: Err, b: View)
    requires Moves(a, i, err, b)
    ensures Puts(a, Wipes(i, err), MessageOf(a, i, err, b), CallbackAccepted(i, err), b)
  {
    hide Puts, PublishBytes, SubscribeBytes, ConnectBytes, Requested, ReceivedMoves, AckBytes, Feed, Sends, AfterTick,
         AfterConnect, Completed0, Opened, PublishErr, SubUnsubErr, ConnectErr;
    if b.out == a.out && b.accepted == a.accepted {
      PutsNothing(a, b);
    }
    if Possible(a, i) {
      match i
      case Publish(topic, payload, length, qos, retain, cb) => PublishPuts(a, i, err, b);
      case SubUnsub(topic, qos, cb, sub) => SubUnsubPuts(a, i, err, b);
      case Connect(info, pcbOk, bindOk, connectOk) => ConnectPuts(a, i, err, b);
      case Disconnect => ClosedOut(a, false);
      case Received(segment, errOk) => PutsReceived(a, segment, errOk, b);
      case Sent => SentPuts(a, b);
      case Poll => if a.session.conn == MqttConnected { PutsSend(a, b); }
      case Failed => ClosedOut(a, true);
      case Established(errOk) => OpenedPuts(a, errOk, b);
      case Tick => PutsTick(a);
    }
  }


  lemma PublishPuts(a: View, i: Input, err: Err, b: View)
    requires Moves(a, i, err, b) && i.Publish? && Possible(a, i)
    ensures Puts(a, false, MessageOf(a, i, err, b), CallbackAccepted(i, err), b)
  {
    hide Puts, PublishBytes, Requested, AdmitsAt, PublishLength, NextPktId;
    var numbered := a.session.conn != TcpDisconnected && |i.topic| <= 0xFFFD && i.qos > 0;
    var w := if numbered then a.(pktIdSeq := NextPktId(a.pktIdSeq)) else a;
    var id := if i.qos > 0 then w.pktIdSeq else 0;
    if err == Ok {
      PutsRequest(a, w, id, i.cb, PublishBytes(i.topic, i.payload, i.length, i.qos, i.retain, id));
    } else {
      PutsRequest(a, w, id, i.cb, []);
    }
  }

  lemma SubUnsubPuts(a: View, i: Input, err: Err, b: View)
    requires Moves(a, i, err, b) && i.SubUnsub? && Possible(a, i)
    ensures Puts(a, false, MessageOf(a, i, err, b), CallbackAccepted(i, err), b)
  {
    hide Puts, SubscribeBytes, Requested, AdmitsAt, SubscribeLength, NextPktId;
    var w := if err in {Ok, ErrMem} then a.(pktIdSeq := NextPktId(a.pktIdSeq)) else a;
    if err == Ok {
      PutsRequest(a, w, w.pktIdSeq, i.cb, SubscribeBytes(i.topic, i.qos, i.sub, w.pktIdSeq));
    } else {
      PutsRequest(a, w, 0, i.cb, []);
    }
  }

  lemma ConnectPuts(a: View, i: Input, err: Err, b: View)
    requires Moves(a, i, err, b) && i.Connect? && Possible(a, i)
    ensures Puts(a, Wipes(i, err), MessageOf(a, i, err, b), multiset{}, b)
  {
    hide Puts, ConnectBytes, LengthsOk, AdmitsAt;
    if err == ErrIsConn {
      PutsNothing(a, b);
    } else {
      PutsConnect(a, i.info, i.pcbOk, i.bindOk, i.connectOk);
    }
  }

  lemma ClosedOut(a: View, told: bool)
    ensures Puts(a, false, [], multiset{}, Closed(a, told))
  {
    PutsNothing(a, Closed(a, told));
  }

  lemma SentPuts(a: View, b: View)
    requires if a.session.conn == MqttConnected then SendMoves(Completed0(a), b) else b == a
    ensures Puts(a, false, [], multiset{}, b)
  {
    hide Numbered, Unnumbered, SentEvents;
    if a.session.conn == MqttConnected {
      PutsSend(a, b);
    } else {
      PutsNothing(a, b);
    }
  }

  lemma OpenedPuts(a: View, errOk: bool, b: View)
    requires if errOk then SendMoves(Opened(a), b) else b == a
    ensures Puts(a, false, [], multiset{}, b)
  {
    if errOk {
      PutsSend(a, b);
    } else {
      PutsNothing(a, b);
    }
  }

  ghost function Last(trace: seq<View>): View
    requires trace != []
  {
    trace[|trace| - 1]
  }

  lemma FirstPart(trace: seq<View>, inputs: seq<Input>, errs: seq<Err>)
    requires Behaviour(trace, inputs, errs) && inputs != []
    ensures var n := |inputs| - 1;
      && Behaviour(trace[..n + 1], inputs[..n], errs[..n]) && Last(trace[..n + 1]) == trace[n]
      && Moves(trace[n], inputs[n], errs[n], trace[n + 1]) && Last(trace) == trace[n + 1]
  {
    hide Moves, Sound;
    var n := |inputs| - 1;
    forall k | 0 <= k < n
      ensures Moves(trace[..n + 1][k], inputs[..n][k], errs[..n][k], trace[..n + 1][k + 1])
    {
      assert inputs[..n][k] == inputs[k] && trace[..n + 1][k + 1] == trace[k + 1];
    }
    assert Moves(trace[n], inputs[n], errs[n], trace[n + 1]);
  }

  lemma RestPart(trace: seq<View>, inputs: seq<Input>, errs: seq<Err>)
    requires Behaviour(trace, inputs, errs) && inputs != []
    ensures Behaviour(trace[1..], inputs[1..], errs[1..]) && Last(trace[1..]) == Last(trace)
    ensures Moves(trace[0], inputs[0], errs[0], trace[1]) && Sound(trace[0]) && Sound(trace[1])
  {
    hide Moves, Sound;
    forall k | 0 <= k < |inputs| - 1
      ensures Moves(trace[1..][k], inputs[1..][k], errs[1..][k], trace[1..][k + 1])
    {
      assert inputs[1..][k] == inputs[k + 1] && trace[1..][k + 1] == trace[k + 2];
    }
    assert Moves(trace[0], inputs[0], errs[0], trace[0 + 1]);
  }

  /** All that a run puts into the ring since the last connection attempt, in order: the
      messages of the calls that have been accepted, acknowledgements and pings. */
  ghost function Outbox(trace: seq<View>, inputs: seq<Input>, errs: seq<Err>): seq<byte>
    requires Behaviour(trace, inputs, errs)
    decreases |inputs|
  {
    if inputs == [] then trace[0].out.queued
    else
      var n := |inputs| - 1;
      FirstPart(trace, inputs, errs);
      (if Wipes(inputs[n], errs[n]) then [] else Outbox(trace[..n + 1], inputs[..n], errs[..n]))
      + MessageOf(trace[n], inputs[n], errs[n], trace[n + 1])
  }

  /** The callbacks of the calls that have been accepted. */
  function AcceptedOf(inputs: seq<Input>, errs: seq<Err>): multiset<nat>
    requires |inputs| == |errs|
    decreases |inputs|
  {
    if inputs == [] then multiset{}
    else
      var n := |inputs| - 1;
      AcceptedOf(inputs[..n], errs[..n]) + CallbackAccepted(inputs[n], errs[n])
  }

  /** Every message leaves a byte of the ring free. */
  ghost predicate NeverFilled(trace: seq<View>, inputs: seq<Input>, errs: seq<Err>)
    requires Behaviour(trace, inputs, errs)
  {
    forall k {:trigger inputs[k]} :: 0 <= k < |inputs| ==>
      (if Wipes(inputs[k], errs[k]) then 0 else trace[k].out.held)
      + |MessageOf(trace[k], inputs[k], errs[k], trace[k + 1])| < RING_SIZE
  }

  /** No new connection attempt is made. */
  ghost predicate Lasting(inputs: seq<Input>, errs: seq<Err>)
    requires |inputs| == |errs|
  {
    forall k {:trigger inputs[k]} :: 0 <= k < |inputs| ==> !Wipes(inputs[k], errs[k])
  }

  lemma LastingFirst(inputs: seq<Input>, errs: seq<Err>)
    requires |inputs| == |errs| && inputs != []
    ensures var n := |inputs| - 1; Lasting(inputs, errs) ==> Lasting(inputs[..n], errs[..n]) && !Wipes(inputs[n], errs[n])
  {
    hide Wipes;
    var n := |inputs| - 1;
    if Lasting(inputs, errs) {
      forall k {:trigger inputs[..n][k]} | 0 <= k < n ensures !Wipes(inputs[..n][k], errs[..n][k]) {
        assert inputs[..n][k] == inputs[k];
      }
      assert !Wipes(inputs[n], errs[n]);
    }
  }

  /** Over every run: what has been put into the ring since the last connection attempt are the
      messages of the inputs, in order; the callbacks accepted are those of the calls that
      returned without an error; what TCP has taken only grows while no new attempt is made. */
  lemma {:induction false} RunPuts(trace: seq<View>, inputs: seq<Input>, errs: seq<Err>)
    requires Behaviour(trace, inputs, errs)
    ensures Last(trace).out.queued == Outbox(trace, inputs, errs)
    ensures Last(trace).accepted == trace[0].accepted + AcceptedOf(inputs, errs)
    ensures Lasting(inputs, errs) ==> trace[0].out.wire <= Last(trace).out.wire
    decreases |inputs|
  {
    if inputs != [] {
      var n := |inputs| - 1;
      FirstPart(trace, inputs, errs);
      hide Behaviour, Moves, MessageOf, CallbackAccepted, Wipes, Puts, Lasting;
      RunPuts(trace[..n + 1], inputs[..n], errs[..n]);
      MovePuts(trace[n], inputs[n], errs[n], trace[n + 1]);
      LastingFirst(inputs, errs);
      PutsMore(trace[0], trace[n], Wipes(inputs[n], errs[n]), MessageOf(trace[n], inputs[n], errs[n], trace[n + 1]),
               AcceptedOf(inputs[..n], errs[..n]), CallbackAccepted(inputs[n], errs[n]), trace[n + 1]);
    }
  }

  lemma PutsMore(first: View, a: View, wipes: bool, m: seq<byte>, before: multiset<nat>, now: multiset<nat>, b: View)
    requires Puts(a, wipes, m, now, b) && a.accepted == first.accepted + before
    ensures b.out.queued == (if wipes then [] else a.out.queued) + m
    ensures b.accepted == first.accepted + (before + now)
    ensures !wipes && first.out.wire <= a.out.wire ==> first.out.wire <= b.out.wire
  {
  }

  /** Nothing is lost in a run in which every message leaves a byte of the ring free. */
  lemma {:induction false} RunKeeps(trace: seq<View>, inputs: seq<Input>, errs: seq<Err>)
    requires Behaviour(trace, inputs, errs) && trace[0].out.kept && NeverFilled(trace, inputs, errs)
    ensures Last(trace).out.kept
    decreases |inputs|
  {
    if inputs != [] {
      var n := |inputs| - 1;
      FirstPart(trace, inputs, errs);
      FirstFilled(trace, inputs, errs);
      hide Behaviour, Moves, MessageOf, CallbackAccepted, Wipes, NeverFilled;
      RunKeeps(trace[..n + 1], inputs[..n], errs[..n]);
      MovePuts(trace[n], inputs[n], errs[n], trace[n + 1]);
    }
  }

  lemma FirstFilled(trace: seq<View>, inputs: seq<Input>, errs: seq<Err>)
    requires Behaviour(trace, inputs, errs) && inputs != [] && NeverFilled(trace, inputs, errs)
    ensures var n := |inputs| - 1;
      && Behaviour(trace[..n + 1], inputs[..n], errs[..n])
      && NeverFilled(trace[..n + 1], inputs[..n], errs[..n])
      && (if Wipes(inputs[n], errs[n]) then 0 else trace[n].out.held)
         + |MessageOf(trace[n], inputs[n], errs[n], trace[n + 1])| < RING_SIZE
  {
    FirstPart(trace, inputs, errs);
    hide Moves, Sound, MessageOf, Wipes;
    var n := |inputs| - 1;
    forall k {:trigger inputs[..n][k]} | 0 <= k < n
      ensures (if Wipes(inputs[..n][k], errs[..n][k]) then 0 else trace[..n + 1][k].out.held)
        + |MessageOf(trace[..n + 1][k], inputs[..n][k], errs[..n][k], trace[..n + 1][k + 1])| < RING_SIZE
    {
      assert inputs[..n][k] == inputs[k] && trace[..n + 1][k + 1] == trace[k + 1];
    }
    assert inputs[n] == inputs[n];
  }

  /** What the application is told in one move. */
  ghost function NewEvents(a: View, i: Input): seq<Event> {
    if !Possible(a, i) then []
    else
      match i
      case Received(segment, errOk) =>
        if segment.None? then [ConnectionDown]
        else if !errOk || !ValidPhase(a.phase) then []
        else
          var o := Feed(a.phase, a.session, segment.value);
          o.events + if o.status.Accepted? then [] else [ConnectionDown]
      case Sent => if a.session.conn == MqttConnected then SentEvents(Unnumbered(a.session.pending)) else []
      case Failed => [ConnectionDown]
      case Tick =>
        if Ticked(a, i) then
          TimeoutEvents(Timeouts(a.session.pending, CYCLIC_INTERVAL))
          + if a.keepAlive > 0 && Silent(Plus1(a.watchdog), a.keepAlive) then [ConnectionDown] else []
        else if Plus1(a.session.cyclicTick) * CYCLIC_INTERVAL >= CONNECT_TIMEOUT then [ConnectionDown]
        else []
      case _ => []
  }

  /** A tick of a connected client. */
  predicate Ticked(a: View, i: Input) {
    i.Tick? && a.session.conn == MqttConnected
  }

  /** One move adds to the history, and exactly these events to what the application is told. */
  lemma MoveTells(a: View, i: Input, err: Err, b: View)
    requires Moves(a, i, err, b)
    ensures b.events == a.events + NewEvents(a, i)
    ensures a.accepted <= b.accepted && a.dropped <= b.dropped
  {
    hide PublishBytes, SubscribeBytes, ConnectBytes, Put, Feed, Sends, LengthsOk, AdmitsAt, PublishLength, SubscribeLength,
         NextPktId, MqttDeadlines.Append, Elapse, Timeouts, TimeoutEvents, Callbacks, Lost, Answered, Silent, PingDue, SentEvents,
         Numbered, Unnumbered, CallbackOf;
    assert a.events + [] == a.events;
    match i
    case Received(segment, errOk) => ReceivedTells(a, i, err, b);
    case Tick => TickTells(a, i, err, b);
    case _ =>
  }

  lemma ReceivedTells(a: View, i: Input, err: Err, b: View)
    requires Moves(a, i, err, b) && i.Received?
    ensures b.events == a.events + NewEvents(a, i)
    ensures a.accepted <= b.accepted && a.dropped <= b.dropped
  {
    hide Feed, Answered, Lost, Callbacks;
    assert a.events + [] == a.events;
    if Possible(a, i) && i.segment.Some? && i.errOk {
      var o := Feed(a.phase, a.session, i.segment.value);
      assert o.events + [] == o.events;
      Assoc(a.events, o.events, [ConnectionDown]);
    }
  }

  lemma TickTells(a: View, i: Input, err: Err, b: View)
    requires Moves(a, i, err, b) && i.Tick?
    ensures b.events == a.events + NewEvents(a, i)
    ensures a.accepted <= b.accepted && a.dropped <= b.dropped
  {
    hide Elapse, Timeouts, TimeoutEvents, Callbacks, Put, Silent, PingDue;
    assert a.events + [] == a.events;
    var es := TimeoutEvents(Timeouts(a.session.pending, CYCLIC_INTERVAL));
    assert es + [] == es;
    Assoc(a.events, es, [ConnectionDown]);
  }

  /** A callback accepted once, in a call of the run or before it, is called at most once, and
      never once it has been given up. */
  lemma {:induction false} RunCallsOnce(trace: seq<View>, inputs: seq<Input>, errs: seq<Err>, c: nat)
    requires Behaviour(trace, inputs, errs) && (trace[0].accepted + AcceptedOf(inputs, errs))[c] <= 1
    ensures multiset(Called(Last(trace).events))[c] <= 1
    ensures c in trace[0].dropped ==> c !in Called(Last(trace).events)
  {
    RunPuts(trace, inputs, errs);
    RunGrows(trace, inputs, errs);
    var v := Last(trace);
    assert Balanced(v.accepted, v.events, v.session.pending, v.dropped);
    CalledAtMostOnce(v.accepted, v.events, v.session.pending, v.dropped, c);
  }

  lemma {:induction false} RunGrows(trace: seq<View>, inputs: seq<Input>, errs: seq<Err>)
    requires Behaviour(trace, inputs, errs)
    ensures trace[0].events <= Last(trace).events
    ensures trace[0].accepted <= Last(trace).accepted && trace[0].dropped <= Last(trace).dropped
    decreases |inputs|
  {
    if inputs != [] {
      hide Behaviour, Moves, NewEvents;
      RestPart(trace, inputs, errs);
      RunGrows(trace[1..], inputs[1..], errs[1..]);
      MoveTells(trace[0], inputs[0], errs[0], trace[1]);
    }
  }

  /** A callback accepted once is called at most once, and not at all while it is pending or
      once it has been dropped. */
  lemma CalledAtMostOnce(accepted: multiset<nat>, es: seq<Event>, pending: seq<Pending>, dropped: multiset<nat>, c: nat)
    requires Balanced(accepted, es, pending, dropped) && accepted[c] <= 1
    ensures multiset(Called(es))[c] <= 1
    ensures c in dropped || c in Callbacks(pending) ==> c !in Called(es)
  {
    assert accepted[c] == multiset(Called(es))[c] + multiset(Callbacks(pending))[c] + dropped[c];
    if c in Callbacks(pending) {
      assert multiset(Callbacks(pending))[c] > 0;
    }
    if c in Called(es) {
      assert multiset(Called(es))[c] > 0;
    }
  }

  /** The queue keeps requests as they are or gets one whose callback is accepted now. */
  ghost predicate Keeps(q: seq<Pending>, added: multiset<nat>, q': seq<Pending>) {
    forall e :: e in q' ==> e in q || (e.cb.Some? ==> e.cb.value in added)
  }

  lemma AppendKeeps(q: seq<Pending>, id: u16, cb: Callback)
    ensures Keeps(q, if cb.Some? then multiset{cb.value} else multiset{}, Append(q, id, cb))
    ensures Keeps(q, multiset{}, q) && Keeps(q, multiset{}, [])
  {
  }

  lemma {:induction false} NumberedKeeps(q: seq<Pending>)
    ensures OnlyFewer(q, Numbered(q))
  {
    if q != [] {
      NumberedKeeps(q[1..]);
    }
  }

  /** Any move but a tick of a connected client leaves waiting requests their deadlines. */
  lemma MoveKeeps(a: View, i: Input, err: Err, b: View)
    requires Moves(a, i, err, b) && !Ticked(a, i)
    ensures Keeps(a.session.pending, CallbackAccepted(i, err), b.session.pending)
  {
    hide PublishBytes, SubscribeBytes, ConnectBytes, Put, Feed, Sends, LengthsOk, AdmitsAt, PublishLength, SubscribeLength,
         NextPktId, Append, Callbacks, Lost, Answered, Silent, PingDue, SentEvents, Numbered, Unnumbered, CallbackOf, Keeps;
    var q := a.session.pending;
    AppendKeeps(q, 0, None);
    match i
    case Publish(_, _, _, _, _, cb) =>
      forall id: u16 { AppendKeeps(q, id, cb); }
    case SubUnsub(_, _, cb, _) =>
      forall id: u16 { AppendKeeps(q, id, cb); }
    case Received(segment, errOk) =>
      if Possible(a, i) && segment.Some? && errOk {
        FeedFewer(a.phase, a.session, segment.value);
        FewerKeeps(q, Feed(a.phase, a.session, segment.value).session.pending);
      }
    case Sent =>
      NumberedKeeps(q);
      FewerKeeps(q, Numbered(q));
    case _ =>
  }

  lemma FewerKeeps(q: seq<Pending>, q': seq<Pending>)
    requires OnlyFewer(q, q')
    ensures Keeps(q, multiset{}, q')
  {
  }

  lemma {:induction false} FromCallbacks(q: seq<Pending>, c: nat) returns (p: Pending)
    requires c in Callbacks(q)
    ensures p in q && p.cb == Some(c)
  {
    if q[0].cb == Some(c) {
      p := q[0];
    } else {
      p := FromCallbacks(q[1..], c);
    }
  }

  lemma {:induction false} InCallbacks(q: seq<Pending>, p: Pending)
    requires p in q && p.cb.Some?
    ensures p.cb.value in Callbacks(q)
  {
    if p == q[0] {
      assert Callbacks(q)[0] == p.cb.value;
    } else {
      InCallbacks(q[1..], p);
    }
  }

  /** Two requests with one callback are the same if the callback is there once. */
  lemma {:induction false} OnlyOne(q: seq<Pending>, d: Pending, e: Pending)
    requires d in q && e in q && d.cb == e.cb && d.cb.Some? && multiset(Callbacks(q))[d.cb.value] <= 1
    ensures d == e
  {
    var c := d.cb.value;
    assert q == [q[0]] + q[1..];
    CallbacksConcat([q[0]], q[1..]);
    CallbacksOfOne(q[0]);
    assert multiset(Callbacks(q))[c] == multiset(CallbackOf(q[0]))[c] + multiset(Callbacks(q[1..]))[c];
    if d in q[1..] {
      InCallbacks(q[1..], d);
      if e in q[1..] {
        OnlyOne(q[1..], d, e);
      }
    } else if e in q[1..] {
      InCallbacks(q[1..], e);
    }
  }

  /** A request waits whose callback has been accepted once. */
  ghost predicate Waiting(v: View, p: Pending) {
    Sound(v) && p in v.session.pending && p.cb.Some? && v.accepted[p.cb.value] == 1
  }

  lemma WaitingOnce(v: View, p: Pending)
    requires Waiting(v, p)
    ensures multiset(Callbacks(v.session.pending))[p.cb.value] == 1
  {
    hide Callbacks, Called;
    InCallbacks(v.session.pending, p);
    var c := p.cb.value;
    assert multiset(Callbacks(v.session.pending))[c] > 0;
    assert v.accepted[c] == multiset(Called(v.events))[c] + multiset(Callbacks(v.session.pending))[c] + v.dropped[c];
  }

  /** A move that is no tick: the request waits on as it is, or its callback is gone. */
  lemma MoveWaits(a: View, i: Input, err: Err, b: View, p: Pending)
    requires Moves(a, i, err, b) && !Ticked(a, i) && Waiting(a, p) && Sound(b) && b.accepted[p.cb.value] == 1
    ensures p.cb.value in Callbacks(b.session.pending) ==> Waiting(b, p)
  {
    hide Moves, Callbacks, CallbackAccepted;
    var c := p.cb.value;
    WaitingOnce(a, p);
    MoveKeeps(a, i, err, b);
    MovePuts(a, i, err, b);
    assert CallbackAccepted(i, err)[c] == 0;
    if c in Callbacks(b.session.pending) {
      var e := FromCallbacks(b.session.pending, c);
      assert c !in CallbackAccepted(i, err);
      OnlyOne(a.session.pending, e, p);
    }
  }

  /** A tick: the request is due and called back, or waits on with that much less time, unless
      the connection is closed. */
  lemma TickWaits(a: View, b: View, p: Pending)
    requires Moves(a, Tick, Ok, b) && Ticked(a, Tick) && Waiting(a, p) && Sound(b) && b.accepted[p.cb.value] == 1
    ensures var c := p.cb.value;
      if c in Timeouts(a.session.pending, CYCLIC_INTERVAL) then p.left <= CYCLIC_INTERVAL
      else c in Callbacks(b.session.pending) ==>
        p.left >= CYCLIC_INTERVAL && Waiting(b, p.(left := p.left - CYCLIC_INTERVAL))
  {
    hide Elapse, Timeouts, Callbacks, Balanced, Put, Silent, PingDue, TimeoutEvents;
    var q, c := a.session.pending, p.cb.value;
    WaitingOnce(a, p);
    PassWaits(q, p, CYCLIC_INTERVAL);
    NoCallbacks();
  }

  lemma NoCallbacks()
    ensures Callbacks([]) == []
  {
  }

  /** A tick calls the request back, when it is due, or brings its deadline forward. */
  lemma PassWaits(q: seq<Pending>, p: Pending, t: nat)
    requires Orderly(q) && p in q && p.cb.Some? && multiset(Callbacks(q))[p.cb.value] == 1
    ensures if p.cb.value in Timeouts(q, t) then p.left <= t
            else p.left >= t && p.(left := p.left - t) in Elapse(q, t)
  {
    hide Orderly, Sorted, Elapse, Timeouts, Callbacks, Fired;
    var j :| 0 <= j < |q| && q[j] == p;
    PassAt(q, j, t);
    if j >= Fired(q, t) {
      InCallbacks(Elapse(q, t), p.(left := p.left - t));
      ElapseCallbacks(q, t);
      CountTwo(Timeouts(q, t), Callbacks(Elapse(q, t)), p.cb.value);
    }
  }

  lemma PassAt(q: seq<Pending>, j: nat, t: nat)
    requires Orderly(q) && j < |q|
    ensures j < Fired(q, t) ==> q[j].left <= t && (q[j].cb.Some? ==> q[j].cb.value in Timeouts(q, t))
    ensures j >= Fired(q, t) ==> q[j].left >= t && q[j].(left := q[j].left - t) in Elapse(q, t)
  {
    assert Sorted(q);
    hide Orderly, Sorted, Elapse, Timeouts, Callbacks, Fired;
    var n := Fired(q, t);
    ElapseFires(q, t);
    if j < n {
      FiredDue(q, j, t);
      assert q[..n][j] == q[j];
      if q[j].cb.Some? {
        InCallbacks(q[..n], q[j]);
      }
    } else {
      SurvivorsNotDue(q, t);
      assert q[n..][j - n] == q[j];
      assert Aged(q[n..], t)[j - n] == q[j].(left := q[j].left - t);
    }
  }

  lemma FiredDue(q: seq<Pending>, j: nat, t: nat)
    requires Sorted(q) && j < Fired(q, t)
    ensures q[j].left <= t
  {
    FiredAreDue(q, t);
  }

  lemma CountTwo(a: seq<nat>, b: seq<nat>, c: nat)
    requires multiset(a + b)[c] == 1 && c in b
    ensures c !in a && multiset(b)[c] == 1
  {
    assert multiset(a + b)[c] == multiset(a)[c] + multiset(b)[c];
    assert c in a <==> multiset(a)[c] > 0;
  }

  /** Ticks of the connected client in a run. */
  function Ticks(trace: seq<View>, inputs: seq<Input>): nat
    requires |trace| == |inputs| + 1
    decreases |inputs|
  {
    if inputs == [] then 0 else (if Ticked(trace[0], inputs[0]) then 1 else 0) + Ticks(trace[1..], inputs[1..])
  }

  /** How many of them it takes until one times out callback `c`, that one included. */
  function FiresAt(trace: seq<View>, inputs: seq<Input>, c: nat): (f: Option<nat>)
    requires |trace| == |inputs| + 1
    ensures f.Some? ==> 1 <= f.value <= Ticks(trace, inputs)
    decreases |inputs|
  {
    if inputs == [] then None
    else if Ticked(trace[0], inputs[0]) && c in Timeouts(trace[0].session.pending, CYCLIC_INTERVAL) then Some(1)
    else
      match FiresAt(trace[1..], inputs[1..], c)
      case None => None
      case Some(n) => Some(n + if Ticked(trace[0], inputs[0]) then 1 else 0)
  }

  /** A callback accepted once that is not pending any more will not be again. */
  lemma {:induction false} RunGone(trace: seq<View>, inputs: seq<Input>, errs: seq<Err>, c: nat)
    requires Behaviour(trace, inputs, errs) && Last(trace).accepted[c] <= 1
    requires c in Called(trace[0].events) || c in trace[0].dropped
    ensures FiresAt(trace, inputs, c) == None && c !in Callbacks(Last(trace).session.pending)
    decreases |inputs|
  {
    NotPending(trace, inputs, errs, c);
    if inputs != [] {
      hide Behaviour, Moves, NewEvents, Called, Timeouts, Callbacks;
      RestPart(trace, inputs, errs);
      MoveTells(trace[0], inputs[0], errs[0], trace[1]);
      CalledConcat(trace[0].events, NewEvents(trace[0], inputs[0]));
      RunGone(trace[1..], inputs[1..], errs[1..], c);
    }
  }

  lemma NotPending(trace: seq<View>, inputs: seq<Input>, errs: seq<Err>, c: nat)
    requires Behaviour(trace, inputs, errs) && Last(trace).accepted[c] <= 1
    requires c in Called(trace[0].events) || c in trace[0].dropped
    ensures c !in Callbacks(trace[0].session.pending) && c !in Timeouts(trace[0].session.pending, CYCLIC_INTERVAL)
  {
    hide Callbacks, Called, Timeouts;
    RunGrows(trace, inputs, errs);
    var v := trace[0];
    assert Sound(v);
    CalledAtMostOnce(v.accepted, v.events, v.session.pending, v.dropped, c);
    ElapseCallbacks(v.session.pending, CYCLIC_INTERVAL);
  }

  /** A callback accepted once has been called or given up unless it is pending. */
  lemma WhereItIs(v: View, c: nat)
    requires Sound(v) && v.accepted[c] == 1
    ensures c in Callbacks(v.session.pending) || c in Called(v.events) || c in v.dropped
  {
    hide Callbacks, Called;
    assert v.accepted[c] == multiset(Called(v.events))[c] + multiset(Callbacks(v.session.pending))[c] + v.dropped[c];
  }

  /** How a waiting request fares over every run, `f` ticks to its timeout and `n` in all. */
  ghost predicate Fares(f: Option<nat>, n: nat, p: Pending, end: View) {
    && (f.Some? ==> 1 <= f.value && (f.value - 1) * CYCLIC_INTERVAL <= p.left <= f.value * CYCLIC_INTERVAL)
    && (p.cb.Some? && p.cb.value in Callbacks(end.session.pending) ==>
          f.None? && n * CYCLIC_INTERVAL <= p.left && Waiting(end, p.(left := p.left - n * CYCLIC_INTERVAL)))
  }

  /** A tick more. */
  lemma FaresOn(f: Option<nat>, n: nat, p: Pending, end: View)
    requires p.left >= CYCLIC_INTERVAL && Fares(f, n, p.(left := p.left - CYCLIC_INTERVAL), end)
    ensures Fares(if f.Some? then Some(f.value + 1) else None, n + 1, p, end)
  {
    hide Callbacks, Waiting;
  }

  /** Nothing has happened yet. */
  lemma FaresYet(p: Pending, v: View)
    requires Waiting(v, p)
    ensures Fares(None, 0, p, v)
  {
  }

  /** The callback is not pending at the end. */
  lemma FaresGone(f: Option<nat>, n: nat, p: Pending, end: View)
    requires p.cb.Some? && p.cb.value !in Callbacks(end.session.pending)
    requires f == None || (f == Some(1) && p.left <= CYCLIC_INTERVAL)
    ensures Fares(f, n, p, end)
  {
  }

  lemma FiresStep(trace: seq<View>, inputs: seq<Input>, c: nat)
    requires |trace| == |inputs| + 1 && inputs != []
    ensures var ticked, f := Ticked(trace[0], inputs[0]), FiresAt(trace[1..], inputs[1..], c);
      && Ticks(trace, inputs) == (if ticked then 1 else 0) + Ticks(trace[1..], inputs[1..])
      && FiresAt(trace, inputs, c)
         == if !ticked then f
            else if c in Timeouts(trace[0].session.pending, CYCLIC_INTERVAL) then Some(1)
            else if f.Some? then Some(f.value + 1) else None
  {
    hide Timeouts, Ticked;
  }

  /** Over every run: a request that waits, with a callback accepted once, is timed out by tick
      f of the connected client for an f with (f - 1) * interval <= left <= f * interval, if by
      any; and while it is pending its deadline is earlier by exactly the ticks that have
      passed, which are not more than `left` allows. */
  lemma {:induction false} RunWindow(trace: seq<View>, inputs: seq<Input>, errs: seq<Err>, p: Pending)
    requires Behaviour(trace, inputs, errs) && Waiting(trace[0], p) && Last(trace).accepted[p.cb.value] == 1
    ensures Fares(FiresAt(trace, inputs, p.cb.value), Ticks(trace, inputs), p, Last(trace))
    decreases |inputs|, 1
  {
    if inputs == [] {
      FaresYet(p, trace[0]);
    } else if Ticked(trace[0], inputs[0]) {
      RunWindowTick(trace, inputs, errs, p, p.cb.value);
    } else {
      RunWindowQuiet(trace, inputs, errs, p);
    }
  }

  lemma {:induction false} RunWindowQuiet(trace: seq<View>, inputs: seq<Input>, errs: seq<Err>, p: Pending)
    requires Behaviour(trace, inputs, errs) && Waiting(trace[0], p) && Last(trace).accepted[p.cb.value] == 1
    requires inputs != [] && !Ticked(trace[0], inputs[0])
    ensures Fares(FiresAt(trace, inputs, p.cb.value), Ticks(trace, inputs), p, Last(trace))
    decreases |inputs|, 0
  {
    var c := p.cb.value;
    var a, b := trace[0], trace[1];
    RestPart(trace, inputs, errs);
    hide Behaviour, Moves, Waiting, Callbacks, Timeouts, Sound, FiresAt, Ticks, Fares, Called, Orderly, Sorted, Balanced;
    FiresStep(trace, inputs, c);
    AcceptedStays(trace, inputs, errs, p);
    MoveWaits(a, inputs[0], errs[0], b, p);
    if c in Callbacks(b.session.pending) {
      RunWindow(trace[1..], inputs[1..], errs[1..], p);
    } else {
      WhereItIs(b, c);
      RunGone(trace[1..], inputs[1..], errs[1..], c);
      FaresGone(None, Ticks(trace, inputs), p, Last(trace));
    }
  }

  lemma AcceptedStays(trace: seq<View>, inputs: seq<Input>, errs: seq<Err>, p: Pending)
    requires Behaviour(trace, inputs, errs) && inputs != []
    requires Waiting(trace[0], p) && Last(trace).accepted[p.cb.value] == 1
    ensures trace[1].accepted[p.cb.value] == 1
  {
    hide Moves, Sound;
    RestPart(trace, inputs, errs);
    MoveTells(trace[0], inputs[0], errs[0], trace[1]);
    RunGrows(trace[1..], inputs[1..], errs[1..]);
  }

  lemma {:induction false} RunWindowTick(trace: seq<View>, inputs: seq<Input>, errs: seq<Err>, p: Pending, c: nat)
    requires |trace| == |inputs| + 1 && |errs| == |inputs| && inputs != [] && p.cb == Some(c)
    requires Behaviour(trace, inputs, errs) && Waiting(trace[0], p) && Last(trace).accepted[c] == 1
    requires Ticked(trace[0], inputs[0])
    ensures Fares(FiresAt(trace, inputs, c), Ticks(trace, inputs), p, Last(trace))
    decreases |inputs|, 0
  {
    hide Behaviour, Moves, Waiting, Callbacks, Timeouts, Sound, FiresAt, Ticks, Fares, Called, Ticked, Orderly, Sorted, Balanced;
    var a, b := trace[0], trace[1];
    var rest, later, errors := trace[1..], inputs[1..], errs[1..];
    RestPart(trace, inputs, errs);
    FiresStep(trace, inputs, c);
    OneTick(a, inputs[0], errs[0], b, p, c, rest, later, errors);
    if c in Timeouts(a.session.pending, CYCLIC_INTERVAL) || c !in Callbacks(b.session.pending) {
      RunGone(rest, later, errors, c);
      FaresGone(FiresAt(trace, inputs, c), Ticks(trace, inputs), p, Last(trace));
    } else {
      RunWindow(rest, later, errors, p.(left := p.left - CYCLIC_INTERVAL));
      FaresOn(FiresAt(rest, later, c), Ticks(rest, later), p, Last(trace));
    }
  }

  /** A tick of the connected client: the request times out, being due, or its callback is gone
      otherwise, or it waits on. */
  lemma OneTick(a: View, i: Input, err: Err, b: View, p: Pending, c: nat,
                rest: seq<View>, later: seq<Input>, errors: seq<Err>)
    requires Moves(a, i, err, b) && Ticked(a, i) && Waiting(a, p) && p.cb == Some(c)
    requires Behaviour(rest, later, errors) && rest[0] == b && Last(rest).accepted[c] == 1
    ensures
      if c in Timeouts(a.session.pending, CYCLIC_INTERVAL) then p.left <= CYCLIC_INTERVAL && c in Called(b.events)
      else if c in Callbacks(b.session.pending) then
        p.left >= CYCLIC_INTERVAL && Waiting(b, p.(left := p.left - CYCLIC_INTERVAL))
      else c in Called(b.events) || c in b.dropped
  {
    assert Sound(b) && a.accepted[c] == 1;
    TickErr(a, i, err, b);
    hide Behaviour, Moves, Callbacks, Timeouts, Sound, Called, Ticked, Waiting, Orderly, Sorted, Balanced;
    MoveTells(a, i, err, b);
    RunGrows(rest, later, errors);
    TickWaits(a, b, p);
    if c in Timeouts(a.session.pending, CYCLIC_INTERVAL) {
      TimedOutCalled(a, i, err, b, c);
    } else if c !in Callbacks(b.session.pending) {
      WhereItIs(b, c);
    }
  }

  lemma TickErr(a: View, i: Input, err: Err, b: View)
    requires Moves(a, i, err, b) && Ticked(a, i)
    ensures i == Tick && err == Ok
  {
  }

  /** A tick calls the callbacks of the requests that are due. */
  lemma TimedOutCalled(a: View, i: Input, err: Err, b: View, c: nat)
    requires Moves(a, i, err, b) && Ticked(a, i) && c in Timeouts(a.session.pending, CYCLIC_INTERVAL)
    ensures c in Called(b.events)
  {
    hide Moves, Called, Timeouts, TimeoutEvents, Silent;
    MoveTells(a, i, err, b);
    var cbs := Timeouts(a.session.pending, CYCLIC_INTERVAL);
    var down := if a.keepAlive > 0 && Silent(Plus1(a.watchdog), a.keepAlive) then [ConnectionDown] else [];
    TimeoutsCalled(cbs);
    CalledConcat(a.events, NewEvents(a, i));
    CalledConcat(TimeoutEvents(cbs), down);
  }

  /** A move tells a timeout exactly if it is a tick and the request is due. */
  lemma MoveTimesOut(a: View, i: Input, err: Err, b: View, c: nat)
    requires Moves(a, i, err, b)
    ensures TimedOut(c) in NewEvents(a, i) <==> Ticked(a, i) && c in Timeouts(a.session.pending, CYCLIC_INTERVAL)
  {
    hide Feed, Timeouts, SentEvents, Unnumbered, Silent, AfterTick, Answered, TimeoutEvents, AfterPublish, AfterSubUnsub,
         AfterConnect, Sends, Closed;
    match i
    case Received(segment, errOk) =>
      if Possible(a, i) && segment.Some? && errOk {
        FeedNoTimeouts(a.phase, a.session, segment.value);
      }
    case Sent => SentNoTimeouts(Unnumbered(a.session.pending));
    case Tick =>
      TimeoutIn(Timeouts(a.session.pending, CYCLIC_INTERVAL), c);
    case _ =>
  }

  lemma TimeoutIn(cbs: seq<nat>, c: nat)
    ensures TimedOut(c) in TimeoutEvents(cbs) <==> c in cbs
  {
    if c in cbs {
      var k :| 0 <= k < |cbs| && cbs[k] == c;
      assert TimeoutEvents(cbs)[k] == TimedOut(c);
    }
  }

  lemma {:induction false} SentNoTimeouts(q: seq<Pending>)
    ensures NoTimeouts(SentEvents(q))
  {
    if q != [] {
      SentNoTimeouts(q[1..]);
    }
  }

  /** The application is told of a timeout exactly if there is a tick for it. */
  lemma {:induction false} RunTimesOut(trace: seq<View>, inputs: seq<Input>, errs: seq<Err>, c: nat)
    requires Behaviour(trace, inputs, errs)
    ensures trace[0].events <= Last(trace).events
    ensures TimedOut(c) in Last(trace).events[|trace[0].events|..] <==> FiresAt(trace, inputs, c).Some?
    decreases |inputs|
  {
    RunGrows(trace, inputs, errs);
    if inputs != [] {
      assert |trace| == |inputs| + 1;
      hide Behaviour, Moves, NewEvents, FiresAt, Ticks, Timeouts, Sound, Ticked;
      RestPart(trace, inputs, errs);
      FiresStep(trace, inputs, c);
      MoveTells(trace[0], inputs[0], errs[0], trace[1]);
      MoveTimesOut(trace[0], inputs[0], errs[0], trace[1], c);
      RunGrows(trace[1..], inputs[1..], errs[1..]);
      RunTimesOut(trace[1..], inputs[1..], errs[1..], c);
      MoreEvents(trace[0].events, NewEvents(trace[0], inputs[0]), Last(trace).events);
    }
  }

  lemma MoreEvents(es: seq<Event>, more: seq<Event>, all: seq<Event>)
    requires es + more <= all
    ensures es <= all && all[|es|..] == more + all[|es + more|..]
  {
  }

  /** A call that is accepted with callback `c`. */
  predicate Asks(i: Input, err: Err, c: nat) {
    (i.Publish? || i.SubUnsub?) && err == Ok && i.cb == Some(c)
  }

  lemma AsksWaits(a: View, i: Input, err: Err, b: View, c: nat) returns (p: Pending)
    requires Moves(a, i, err, b) && Asks(i, err, c) && Possible(a, i) && Sound(b) && b.accepted[c] == 1
    ensures Waiting(b, p) && p.cb == Some(c) && p.left == REQ_TIMEOUT
  {
    hide PublishBytes, SubscribeBytes, Put, AdmitsAt, PublishLength, SubscribeLength, NextPktId, Balanced;
    p := b.session.pending[|b.session.pending| - 1];
  }

  /** With the client's own timeout and interval: a request that has been accepted with a
      callback of its own is timed out, if it is, by the sixth or seventh tick of the connected
      client; and after seven it has been called back or given up. */
  lemma ClientTimeout(trace: seq<View>, inputs: seq<Input>, errs: seq<Err>, c: nat)
    requires Behaviour(trace, inputs, errs) && inputs != [] && Possible(trace[0], inputs[0])
    requires Asks(inputs[0], errs[0], c) && Last(trace).accepted[c] == 1
    ensures var f, n, end := FiresAt(trace[1..], inputs[1..], c), Ticks(trace[1..], inputs[1..]), Last(trace);
      && trace[1].events <= end.events
      && (TimedOut(c) in end.events[|trace[1].events|..] <==> f.Some?)
      && (f.Some? ==> 6 <= f.value <= 7)
      && (n >= 7 ==> c in Called(end.events) || c in end.dropped)
  {
    hide Moves, FiresAt, Ticks, Callbacks, Called, Possible;
    RestPart(trace, inputs, errs);
    RunGrows(trace[1..], inputs[1..], errs[1..]);
    MovePuts(trace[0], inputs[0], errs[0], trace[1]);
    var p := AsksWaits(trace[0], inputs[0], errs[0], trace[1], c);
    RunWindow(trace[1..], inputs[1..], errs[1..], p);
    RunTimesOut(trace[1..], inputs[1..], errs[1..], c);
    WhereItIs(Last(trace), c);
  }
}
