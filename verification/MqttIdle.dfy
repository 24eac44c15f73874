/** An idle connection of the MQTT client: after how many intervals of five seconds it is given
    up, pings the server or is closed (libraries/mqtt_patched.c, lines 581 to 626; MQTT 3.1.1,
    section 3.1.2.10). */
module MqttIdle {
  import opened Bytes
  import opened MqttRing
  import opened MqttMessages
  import opened MqttDeadlines
  import opened MqttReceive
  import opened MqttAccounts
  import opened MqttCalls
  import opened MqttOutput
  import opened MqttMachine
  import opened MqttBehaviours
  import opened MqttWire

  /** Calls of the application that ask for something, and the timer: nothing comes from the
      server and nothing has been sent. */
  predicate Quiet(i: Input) {
    i.Publish? || i.SubUnsub? || i.Poll? || i.Tick?
  }

  ghost predicate AllQuiet(inputs: seq<Input>) {
    forall k :: 0 <= k < |inputs| ==> Quiet(inputs[k])
  }

  /** Timer ticks on a connection that is up. */
  predicate Counts(a: View, i: Input) {
    i.Tick? && Up(a.session.conn)
  }

  function Intervals(trace: seq<View>, inputs: seq<Input>): nat
    requires |trace| == |inputs| + 1
    decreases |inputs|
  {
    if inputs == [] then 0
    else
      var n := |inputs| - 1;
      Intervals(trace[..n + 1], inputs[..n]) + if Counts(trace[n], inputs[n]) then 1 else 0
  }

  /** After `n` intervals without an answer to the connection request: 100 seconds are the end. */
  predicate Unanswered(n: nat, v: View) {
    if n < 20 then v.session.conn == MqttConnecting && v.session.cyclicTick == n
    else n == 20 && v.session.conn == TcpDisconnected
  }

  /** After `n` intervals without a word from the server: more than one and a half keep-alive
      times are the end. */
  predicate Unheard(keepAlive: u16, n: nat, v: View) {
    && v.keepAlive == keepAlive
    && if 5 * n <= keepAlive + keepAlive / 2 then
         v.session.conn == MqttConnected && v.watchdog == n && (5 * n < keepAlive ==> v.session.cyclicTick == n)
       else v.session.conn == TcpDisconnected && 5 * (n - 1) <= keepAlive + keepAlive / 2
  }

  lemma MoveUnanswered(n: nat, a: View, i: Input, err: Err, b: View)
    requires Unanswered(n, a) && Moves(a, i, err, b) && Quiet(i)
    ensures Unanswered(if Counts(a, i) then n + 1 else n, b)
  {
    hide AfterConnectedTick;
    if !Counts(a, i) {
      QuietMoves(a, i, err, b);
    }
  }

  lemma MoveUnheard(keepAlive: u16, n: nat, a: View, i: Input, err: Err, b: View)
    requires keepAlive > 0 && Unheard(keepAlive, n, a) && Moves(a, i, err, b) && Quiet(i)
    ensures Unheard(keepAlive, if Counts(a, i) then n + 1 else n, b)
  {
    hide Unheard, AfterConnectedTick, AfterConnectTick;
    if Counts(a, i) {
      TickUnheard(keepAlive, n, a);
    } else {
      RestUnheard(keepAlive, n, a, i, err, b);
    }
  }

  lemma TickUnheard(keepAlive: u16, n: nat, a: View)
    requires keepAlive > 0 && Unheard(keepAlive, n, a) && Up(a.session.conn)
    ensures Unheard(keepAlive, n + 1, AfterTick(a))
  {
    hide AdmitsAt, Elapse, TimeoutEvents, Timeouts, Callbacks, FixedHeader;
  }

  /** Without a tick, nothing counts. */
  lemma RestUnheard(keepAlive: u16, n: nat, a: View, i: Input, err: Err, b: View)
    requires Unheard(keepAlive, n, a) && Moves(a, i, err, b) && Quiet(i) && !Counts(a, i)
    ensures Unheard(keepAlive, n, b)
  {
    hide AfterTick;
    QuietMoves(a, i, err, b);
  }

  lemma QuietMoves(a: View, i: Input, err: Err, b: View)
    requires Moves(a, i, err, b) && Quiet(i) && !Counts(a, i)
    ensures b.session.conn == a.session.conn && b.session.cyclicTick == a.session.cyclicTick
    ensures b.keepAlive == a.keepAlive && b.watchdog == a.watchdog
  {
    hide AfterTick, PublishErr, SubUnsubErr, PublishBytes, SubscribeBytes, NextPktId, MqttDeadlines.Append;
  }

  lemma Lengths(trace: seq<View>, inputs: seq<Input>, errs: seq<Err>)
    requires Behaviour(trace, inputs, errs)
    ensures |trace| == |inputs| + 1 == |errs| + 1
  {
  }

  lemma QuietFirst(inputs: seq<Input>)
    requires AllQuiet(inputs) && inputs != []
    ensures AllQuiet(inputs[..|inputs| - 1]) && Quiet(inputs[|inputs| - 1])
  {
  }

  /** Over every quiet run: a connection request is given up exactly by the 20th tick. */
  lemma {:induction false} GivesUp(trace: seq<View>, inputs: seq<Input>, errs: seq<Err>)
    requires Behaviour(trace, inputs, errs) && AllQuiet(inputs)
    requires trace[0].session.conn == MqttConnecting && trace[0].session.cyclicTick == 0
    ensures Unanswered(Intervals(trace, inputs), Last(trace))
    decreases |inputs|
  {
    hide Behaviour, Moves, Quiet, AllQuiet, Counts;
    Lengths(trace, inputs, errs);
    if inputs != [] {
      var n := |inputs| - 1;
      FirstPart(trace, inputs, errs);
      QuietFirst(inputs);
      GivesUp(trace[..n + 1], inputs[..n], errs[..n]);
      MoveUnanswered(Intervals(trace[..n + 1], inputs[..n]), trace[n], inputs[n], errs[n], trace[n + 1]);
    }
  }

  /** Over every quiet run: the connection is closed exactly by the first tick with more than one
      and a half keep-alive times since the server was heard. */
  lemma {:induction false} Closes(trace: seq<View>, inputs: seq<Input>, errs: seq<Err>)
    requires Behaviour(trace, inputs, errs) && AllQuiet(inputs) && trace[0].keepAlive > 0
    requires trace[0].session.conn == MqttConnected && trace[0].session.cyclicTick == 0 && trace[0].watchdog == 0
    ensures Unheard(trace[0].keepAlive, Intervals(trace, inputs), Last(trace))
    decreases |inputs|
  {
    hide Behaviour, Moves, Quiet, AllQuiet, Counts;
    Lengths(trace, inputs, errs);
    if inputs != [] {
      var n := |inputs| - 1;
      FirstPart(trace, inputs, errs);
      QuietFirst(inputs);
      Closes(trace[..n + 1], inputs[..n], errs[..n]);
      MoveUnheard(trace[0].keepAlive, Intervals(trace[..n + 1], inputs[..n]), trace[n], inputs[n], errs[n], trace[n + 1]);
    }
  }

  /** Over every quiet run, as long as no ping is due: the next tick puts a PINGREQ into the ring
      exactly if it completes a keep-alive time and there are two bytes free. */
  lemma Pings(trace: seq<View>, inputs: seq<Input>, errs: seq<Err>, b: View)
    requires Behaviour(trace, inputs, errs) && AllQuiet(inputs)
    requires trace[0].session.conn == MqttConnected && trace[0].session.cyclicTick == 0 && trace[0].watchdog == 0
    requires 5 * Intervals(trace, inputs) < trace[0].keepAlive && Moves(Last(trace), Tick, Ok, b)
    ensures var a := Last(trace);
      b.out == if 5 * (Intervals(trace, inputs) + 1) >= trace[0].keepAlive && a.out.held + 2 <= 2048
               then Put(a.out, [0xC0, 0x00]) else a.out
  {
    hide Behaviour, Moves, AllQuiet;
    Lengths(trace, inputs, errs);
    Closes(trace, inputs, errs);
    TickMoves(Last(trace), b);
    TickPings(trace[0].keepAlive, Intervals(trace, inputs), Last(trace), b);
  }

  lemma TickMoves(a: View, b: View)
    requires Moves(a, Tick, Ok, b) && a.session.conn == MqttConnected
    ensures b == AfterTick(a)
  {
    hide AfterTick;
  }

  lemma TickPings(keepAlive: u16, n: nat, a: View, b: View)
    requires keepAlive > 0 && Unheard(keepAlive, n, a) && 5 * n < keepAlive && b == AfterTick(a)
    ensures b.out == if 5 * (n + 1) >= keepAlive && a.out.held + 2 <= 2048 then Put(a.out, [0xC0, 0x00]) else a.out
  {
    hide FixedHeader, Elapse, TimeoutEvents, Timeouts, Callbacks, AdmitsAt, Put;
    Pingreq();
    PingFits(a.out.held);
  }

  lemma PingFits(held: nat)
    ensures AdmitsAt(held, 0) <==> held + 2 <= 2048
  {
    assert VarLen(0) == [0];
  }

  lemma Pingreq()
    ensures FixedHeader(PINGREQ, 0, 0, 0, 0) == [0xC0, 0x00]
  {
    FirstBytes();
    assert VarLen(0) == [0];
  }
}
