/** Whole runs of the MQTT client. Class Client moves as the machine of MqttMachine does,
    whatever the order of calls, TCP events and timer ticks; so what holds for every run of the
    machine (module MqttBehaviours) holds for it. */
module MqttRuns {
  import opened Bytes
  import opened MqttRing
  import opened MqttMessages
  import opened MqttDeadlines
  import opened MqttReceive
  import opened MqttRequests
  import opened MqttAccounts
  import opened MqttCalls
  import opened MqttOutput
  import opened MqttMachine
  import opened MqttBehaviours
  import opened MqttClient

  /** Between two events the client's view is sound, and the space check and the pool are full
      exactly when the machine says so. */
  lemma Facts(c: Client)
    requires c.Valid()
    ensures c.pool.Valid() && Sound(c.Now())
    ensures c.log.held == |c.output.Contents()|
    ensures c.conn != TcpDisconnected ==> (c.pool.Full() <==> |c.pool.Queue()| == REQ_MAX)
  {
    hide Balanced, Orderly, RingBuffer.Contents, RingBuffer.Valid, RequestPool.Valid, RequestPool.Queue,
         RequestPool.Settled, RequestPool.Full;
    c.pool.QueueOrderly();
    c.pool.QueueBound();
    c.Prefix();
  }

  method DoPublish(c: Client, topic: seq<byte>, payload: Option<seq<byte>>, length: u16, qos: nat, retain: nat, cb: Callback)
    returns (err: Err)
    requires c.Valid() && (payload.Some? ==> length <= |payload.value|)
    modifies c, c.rx, c.output, c.output.buf, c.pool, c.pool.slots
    ensures c.Valid() && c.Grows()
    ensures err == PublishErr(old(c.Now()), topic, length, qos)
    ensures c.Now() == AfterPublish(old(c.Now()), topic, payload, length, qos, retain, cb)
  {
    hide Client.Valid, RingBuffer.Contents, RequestPool.Queue, RequestPool.Full, Sound, Put, PublishBytes, PublishLength, CallbackOf,
         AdmitsAt, NextPktId, MqttDeadlines.Append;
    Facts(c);
    err := c.Publish(topic, payload, length, qos, retain, cb);
  }

  method DoSubUnsub(c: Client, topic: seq<byte>, qos: nat, cb: Callback, sub: bool) returns (err: Err)
    requires c.Valid() && qos < 3
    modifies c, c.rx, c.output, c.output.buf, c.pool, c.pool.slots
    ensures c.Valid() && c.Grows()
    ensures err == SubUnsubErr(old(c.Now()), topic, sub)
    ensures c.Now() == AfterSubUnsub(old(c.Now()), topic, qos, cb, sub)
  {
    hide Client.Valid, RingBuffer.Contents, RequestPool.Queue, RequestPool.Full, Sound, Put, SubscribeBytes, SubscribeLength,
         CallbackOf, AdmitsAt, NextPktId, MqttDeadlines.Append;
    Facts(c);
    err := c.SubUnsub(topic, qos, cb, sub);
  }

  method DoConnect(c: Client, info: ConnectInfo, pcbOk: bool, bindOk: bool, connectOk: bool) returns (err: Err)
    requires c.Valid()
    modifies c, c.rx, c.output, c.output.buf, c.pool, c.pool.slots
    ensures c.Valid() && c.Grows()
    ensures err == ConnectErr(old(c.Now()), info, pcbOk, bindOk, connectOk)
    ensures c.Now() == AfterConnect(old(c.Now()), info, pcbOk, bindOk, connectOk)
  {
    hide Client.Valid, RequestPool.Queue, Put, ConnectBytes, LengthsOk, AdmitsAt;
    err := c.Connect(info, pcbOk, bindOk, connectOk);
  }

  method DoDisconnect(c: Client)
    requires c.Valid()
    modifies c, c.rx, c.output, c.output.buf, c.pool, c.pool.slots
    ensures c.Valid() && c.Grows()
    ensures c.Now() == if old(c.conn) == TcpDisconnected then old(c.Now()) else Closed(old(c.Now()), false)
  {
    hide RequestPool.Queue, RequestPool.Settled, RingBuffer.Contents, Client.OutputKept, Client.Accounted, Client.Parsing;
    c.Disconnect();
  }

  method DoReceive(c: Client, p: Option<seq<byte>>, errOk: bool) returns (modelled: bool)
    requires c.Valid() && Up(c.conn) && (p.Some? ==> |p.value| < 0x1_0000)
    modifies c, c.rx, c.output, c.output.buf, c.pool, c.pool.slots
    ensures c.Grows() && (modelled ==> c.Valid() && ReceivedMoves(old(c.Now()), p, errOk, c.Now()))
    ensures modelled <==> p.None? || !errOk || !Feed(old(c.phase), old(c.Session()), p.value).status.Overlong?
  {
    hide RequestPool.Queue, RequestPool.Settled, RingBuffer.Contents, Client.OutputKept, Client.Accounted, Feed, Answered, Lost,
         Callbacks;
    modelled := c.ReceiveCb(p, errOk);
  }

  method DoSent(c: Client)
    requires c.Valid()
    modifies c, c.rx, c.output, c.output.buf, c.pool, c.pool.slots
    ensures c.Valid() && c.Grows()
    ensures if old(c.conn) == MqttConnected then SendMoves(Completed0(old(c.Now())), c.Now()) else c.Now() == old(c.Now())
  {
    hide Client.Valid, RequestPool.Queue, Numbered, Unnumbered, SentEvents, Sends;
    c.SentCb();
  }

  method DoPoll(c: Client)
    requires c.Valid()
    modifies c, c.rx, c.output, c.output.buf, c.pool, c.pool.slots
    ensures c.Valid() && c.Grows()
    ensures if old(c.conn) == MqttConnected then SendMoves(old(c.Now()), c.Now()) else c.Now() == old(c.Now())
  {
    hide Client.Valid, RequestPool.Queue, Sends;
    c.PollCb();
  }

  method DoFail(c: Client)
    requires c.Valid() && c.conn != TcpDisconnected
    modifies c, c.rx, c.output, c.output.buf, c.pool, c.pool.slots
    ensures c.Valid() && c.Grows() && c.Now() == Closed(old(c.Now()), true)
  {
    hide RequestPool.Queue, RequestPool.Settled, RingBuffer.Contents, Client.OutputKept, Client.Accounted, Client.Parsing, Callbacks;
    c.ErrCb();
  }

  method DoEstablish(c: Client, errOk: bool)
    requires c.Valid() && c.conn == TcpConnecting
    modifies c, c.rx, c.output, c.output.buf, c.pool, c.pool.slots
    ensures c.Valid() && c.Grows()
    ensures if errOk then SendMoves(Opened(old(c.Now())), c.Now()) else c.Now() == old(c.Now())
  {
    hide Client.Valid, RequestPool.Queue, Sends;
    c.TcpConnectCb(errOk);
  }

  method DoTick(c: Client)
    requires c.Valid() && Up(c.conn)
    modifies c, c.rx, c.output, c.output.buf, c.pool, c.pool.slots
    ensures c.Valid() && c.Grows() && c.Now() == AfterTick(old(c.Now()))
  {
    hide RequestPool.Queue, RequestPool.Settled, RingBuffer.Contents, Client.OutputKept, Client.Accounted, Client.Parsing, Callbacks,
         Elapse, Timeouts, TimeoutEvents, Put, Silent, PingDue;
    c.CyclicTimer();
  }

  /** A segment whose length fields are beyond the model. */
  ghost predicate Beyond(v: View, i: Input) {
    i.Received? && i.segment.Some? && ValidPhase(v.phase) && Feed(v.phase, v.session, i.segment.value).status.Overlong?
  }

  /** One input, which moves the client as it moves the machine, unless it is beyond the model. */
  method Step(c: Client, i: Input) returns (modelled: bool, err: Err)
    requires c.Valid()
    modifies c, c.rx, c.output, c.output.buf, c.pool, c.pool.slots
    ensures c.Grows() && (modelled ==> c.Valid() && Moves(old(c.Now()), i, err, c.Now()))
    ensures !modelled ==> Beyond(old(c.Now()), i)
  {
    InStep(c);
    hide Client.Valid, Moves, RequestPool.Queue, Beyond;
    modelled := true;
    if i.Publish? || i.SubUnsub? {
      err := StepRequest(c, i);
    } else if i.Connect? || i.Disconnect? {
      err := StepConnection(c, i);
    } else if i.Failed? || i.Established? {
      err := StepTcp(c, i);
    } else {
      modelled, err := StepEvent(c, i);
    }
  }

  method StepRequest(c: Client, i: Input) returns (err: Err)
    requires c.Valid() && (i.Publish? || i.SubUnsub?)
    modifies c, c.rx, c.output, c.output.buf, c.pool, c.pool.slots
    ensures c.Grows() && c.Valid() && Moves(old(c.Now()), i, err, c.Now())
  {
    InStep(c);
    hide Client.Valid, AfterPublish, AfterSubUnsub, PublishErr, SubUnsubErr, RequestPool.Queue;
    err := ErrArg;
    if i.Publish? {
      if i.payload.Some? ==> i.length <= |i.payload.value| {
        err := DoPublish(c, i.topic, i.payload, i.length, i.qos, i.retain, i.cb);
      }
    } else if i.qos < 3 {
      err := DoSubUnsub(c, i.topic, i.qos, i.cb, i.sub);
    }
  }

  method StepConnection(c: Client, i: Input) returns (err: Err)
    requires c.Valid() && (i.Connect? || i.Disconnect?)
    modifies c, c.rx, c.output, c.output.buf, c.pool, c.pool.slots
    ensures c.Grows() && c.Valid() && Moves(old(c.Now()), i, err, c.Now())
  {
    InStep(c);
    hide Client.Valid, Client.Now, AfterConnect, ConnectErr, Closed, RequestPool.Queue, Moves;
    ghost var was := c.Now();
    err := Ok;
    if i.Connect? {
      err := DoConnect(c, i.info, i.pcbOk, i.bindOk, i.connectOk);
      ConnectMoves(was, i, err, c.Now());
    } else {
      DoDisconnect(c);
      DisconnectMoves(was, i, c.Now());
    }
  }

  method StepTcp(c: Client, i: Input) returns (err: Err)
    requires c.Valid() && (i.Failed? || i.Established?)
    modifies c, c.rx, c.output, c.output.buf, c.pool, c.pool.slots
    ensures c.Grows() && c.Valid() && Moves(old(c.Now()), i, err, c.Now())
  {
    InStep(c);
    hide Client.Valid, Client.Now, Closed, SendMoves, Opened, RequestPool.Queue, Moves;
    ghost var was := c.Now();
    err := ErrArg;
    if i.Failed? && c.conn != TcpDisconnected {
      DoFail(c);
      err := Ok;
    } else if i.Established? && c.conn == TcpConnecting {
      DoEstablish(c, i.errOk);
      err := Ok;
    }
    TcpMoves(was, i, err, c.Now());
  }

  lemma ConnectMoves(a: View, i: Input, err: Err, b: View)
    requires i.Connect? && err == ConnectErr(a, i.info, i.pcbOk, i.bindOk, i.connectOk)
    requires b == AfterConnect(a, i.info, i.pcbOk, i.bindOk, i.connectOk)
    ensures Moves(a, i, err, b)
  {
  }

  lemma DisconnectMoves(a: View, i: Input, b: View)
    requires i.Disconnect? && b == if a.session.conn == TcpDisconnected then a else Closed(a, false)
    ensures Moves(a, i, Ok, b)
  {
  }

  lemma TcpMoves(a: View, i: Input, err: Err, b: View)
    requires i.Failed? || i.Established?
    requires err == if Possible(a, i) then Ok else ErrArg
    requires if !Possible(a, i) then b == a else if i.Failed? then b == Closed(a, true)
             else if i.errOk then SendMoves(Opened(a), b) else b == a
    ensures Moves(a, i, err, b)
  {
  }

  method StepEvent(c: Client, i: Input) returns (modelled: bool, err: Err)
    requires c.Valid() && (i.Received? || i.Sent? || i.Poll? || i.Tick?)
    modifies c, c.rx, c.output, c.output.buf, c.pool, c.pool.slots
    ensures c.Grows() && (modelled ==> c.Valid() && Moves(old(c.Now()), i, err, c.Now()))
    ensures !modelled ==> Beyond(old(c.Now()), i)
  {
    InStep(c);
    hide Client.Valid, AfterTick, ReceivedMoves, SendMoves, Completed0, Feed, RequestPool.Queue;
    modelled, err := true, Ok;
    if i.Received? {
      if Up(c.conn) && (i.segment.Some? ==> |i.segment.value| < 0x1_0000) {
        modelled := DoReceive(c, i.segment, i.errOk);
      } else {
        err := ErrArg;
      }
    } else if i.Sent? {
      DoSent(c);
    } else if i.Poll? {
      DoPoll(c);
    } else if Up(c.conn) {
      DoTick(c);
    } else {
      err := ErrArg;
    }
  }

  lemma InStep(c: Client)
    requires c.Valid()
    ensures c.pool.Valid() && (Up(c.conn) ==> ValidPhase(c.phase))
    ensures c.Now().session.conn == c.conn
  {
  }

  /** What TCP has taken and what is in the ring are `box`, in order, unless a message has
      filled the ring, and then bytes are missing. */
  ghost predicate Delivered(c: Client, box: seq<byte>)
    requires c.output.Valid()
    reads c`log, c.output, c.output.buf
  {
    && c.log.queued == box
    && if c.log.kept then c.log.wire + c.output.Contents() == box
       else |c.log.wire| + |c.output.Contents()| < |box|
  }

  /** Any inputs in any order: the client runs as the machine does, unless an input is beyond
      the model. What TCP has taken and what is in the ring are then the messages of the inputs
      since the last connection attempt, in order; the callbacks accepted are those of the calls
      that returned Ok; and while there is a connection every slot is free or queued. */
  method Run(c: Client, inputs: seq<Input>) returns (n: nat, errs: seq<Err>, ghost trace: seq<View>)
    requires c.Valid()
    modifies c, c.rx, c.output, c.output.buf, c.pool, c.pool.slots
    ensures n <= |inputs| && Behaviour(trace, inputs[..n], errs) && trace[0] == old(c.Now())
    ensures n < |inputs| ==> Beyond(Last(trace), inputs[n])
    ensures n == |inputs| ==> c.Valid() && c.Now() == Last(trace) && Delivered(c, Outbox(trace, inputs[..n], errs))
    ensures n == |inputs| ==> c.accepted == old(c.accepted) + AcceptedOf(inputs[..n], errs)
    ensures n == |inputs| && c.conn != TcpDisconnected ==>
      forall s :: 0 <= s < REQ_MAX ==> c.pool.Free(s) || s in c.pool.order
  {
    n, errs, trace := RunAll(c, inputs);
    hide Client.Valid, Behaviour, RequestPool.Queue;
    RunPuts(trace, inputs[..n], errs);
    if n == |inputs| {
      Between(c);
    }
  }

  method RunAll(c: Client, inputs: seq<Input>) returns (n: nat, errs: seq<Err>, ghost trace: seq<View>)
    requires c.Valid()
    modifies c, c.rx, c.output, c.output.buf, c.pool, c.pool.slots
    ensures n <= |inputs| && Behaviour(trace, inputs[..n], errs) && trace[0] == old(c.Now())
    ensures n < |inputs| ==> Beyond(Last(trace), inputs[n])
    ensures n == |inputs| ==> c.Valid() && c.Now() == Last(trace)
  {
    Facts(c);
    hide Client.Valid, Behaviour, Moves, Beyond, RequestPool.Queue, Sound;
    n, errs := 0, [];
    trace := [c.Now()];
    NoMoves(c.Now());
    assert inputs[..0] == [];
    while n < |inputs|
      invariant n <= |inputs| && c.pool.Valid() && c.Valid() && trace != [] && c.Now() == Last(trace)
      invariant Behaviour(trace, inputs[..n], errs) && trace[0] == old(c.Now())
    {
      var modelled;
      modelled, errs, trace := StepMore(c, inputs, n, errs, trace);
      if !modelled {
        return;
      }
      n := n + 1;
    }
  }

  /** The next input of a run. */
  method StepMore(c: Client, inputs: seq<Input>, n: nat, errs: seq<Err>, ghost trace: seq<View>)
    returns (modelled: bool, errs': seq<Err>, ghost trace': seq<View>)
    requires n < |inputs| && c.pool.Valid() && c.Valid() && trace != [] && c.Now() == Last(trace)
    requires Behaviour(trace, inputs[..n], errs)
    modifies c, c.rx, c.output, c.output.buf, c.pool, c.pool.slots
    ensures trace' != [] && trace'[0] == trace[0]
    ensures !modelled ==> errs' == errs && trace' == trace && Beyond(Last(trace), inputs[n])
    ensures modelled ==>
      c.pool.Valid() && c.Valid() && c.Now() == Last(trace') && Behaviour(trace', inputs[..n + 1], errs')
  {
    hide Client.Valid, Behaviour, Moves, Beyond, RequestPool.Queue, Sound;
    errs', trace' := errs, trace;
    var err;
    modelled, err := Step(c, inputs[n]);
    if modelled {
      Facts(c);
      OneMove(trace, inputs[..n], errs, inputs[n], err, c.Now());
      assert inputs[..n + 1] == inputs[..n] + [inputs[n]];
      errs', trace' := errs + [err], trace + [c.Now()];
    }
  }

  lemma NoMoves(v: View)
    requires Sound(v)
    ensures Behaviour([v], [], []) && Last([v]) == v
  {
  }

  lemma OneMove(trace: seq<View>, inputs: seq<Input>, errs: seq<Err>, i: Input, err: Err, v: View)
    requires Behaviour(trace, inputs, errs) && Sound(v) && Moves(Last(trace), i, err, v)
    ensures Behaviour(trace + [v], inputs + [i], errs + [err]) && Last(trace + [v]) == v
  {
    hide Moves, Sound;
    var n := |inputs|;
    var t, j, e := trace + [v], inputs + [i], errs + [err];
    forall k {:trigger j[k]} | 0 <= k < n + 1 ensures Moves(t[k], j[k], e[k], t[k + 1]) {
      if k < n {
        assert inputs[k] == j[k] && t[k] == trace[k] && t[k + 1] == trace[k + 1];
      }
    }
  }

  /** The ring's contents and the whereabouts of every slot between two events. */
  lemma Between(c: Client)
    requires c.Valid()
    ensures c.output.Valid() && Delivered(c, c.log.queued)
    ensures c.conn != TcpDisconnected ==>
      forall i :: 0 <= i < REQ_MAX ==> c.pool.Free(i) || i in c.pool.order
  {
    hide Balanced, Called;
  }

  /** The whole life of a client, from its creation: a callback that is used in one accepted
      call is called at most once, and not at all once it has been given up. */
  method Life(inputs: seq<Input>) returns (c: Client, n: nat, errs: seq<Err>)
    ensures n <= |inputs| && |errs| == n
    ensures n == |inputs| ==> c.Valid() && c.accepted == AcceptedOf(inputs[..n], errs)
    ensures n == |inputs| ==>
      forall cb :: AcceptedOf(inputs[..n], errs)[cb] == 1 ==>
        multiset(Called(c.events))[cb] <= 1 && (cb in c.dropped ==> cb !in Called(c.events))
  {
    hide Client.Valid, Called, Behaviour, Outbox, AcceptedOf, Delivered;
    c := new Client();
    ghost var trace;
    n, errs, trace := Run(c, inputs);
    SameLength(trace, inputs[..n], errs);
    if n == |inputs| {
      Once(c);
    }
  }

  lemma SameLength(trace: seq<View>, inputs: seq<Input>, errs: seq<Err>)
    requires Behaviour(trace, inputs, errs)
    ensures |errs| == |inputs|
  {
  }

  lemma Once(c: Client)
    requires c.Valid()
    ensures forall cb :: c.accepted[cb] == 1 ==>
      multiset(Called(c.events))[cb] <= 1 && (cb in c.dropped ==> cb !in Called(c.events))
  {
    hide Balanced, Called;
    forall cb | c.accepted[cb] == 1
      ensures multiset(Called(c.events))[cb] <= 1 && (cb in c.dropped ==> cb !in Called(c.events))
    {
      CalledAtMostOnce(c.accepted, c.events, c.pool.Queue(), c.dropped, cb);
    }
  }
}
