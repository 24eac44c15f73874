/** The history of the output stream of one connection (libraries/mqtt_patched.c, lines 238 to
    275, 518 to 533 and 638 to 652): what TCP has taken, what has been put into the ring, and
    how acknowledgements fared. */
module MqttOutput {
  import opened Bytes
  import opened MqttRing
  import opened MqttMessages
  import opened MqttReceive

  /** What becomes of an acknowledgement: the ring refuses it, takes it with room to spare, or
      is filled by it to the last byte. */
  datatype Grant = Denied | Fits | Fills

  /** Bytes taken by TCP and bytes put into the ring since the connection was opened, what
      became of each acknowledgement, whether no message has filled the ring, and how many
      bytes the ring holds. */
  datatype Output = Output(wire: seq<byte>, queued: seq<byte>, grants: seq<Grant>, kept: bool, held: nat)

  const NO_OUTPUT := Output([], [], [], true, 0)

  /** TCP takes some of the bytes in the ring. */
  predicate Sends(a: Output, b: Output) {
    && b == a.(wire := b.wire, held := b.held)
    && a.wire <= b.wire && |b.wire| + b.held == |a.wire| + a.held
  }

  /** A message is put into the ring. One that fills it is lost, with all that is there. */
  function Put(a: Output, msg: seq<byte>): Output {
    a.(queued := a.queued + msg, kept := a.kept && a.held + |msg| < RING_SIZE, held := (a.held + |msg|) % RING_SIZE)
  }

  const ACK_SIZE := 4

  function GrantAt(held: nat): Grant {
    if held + ACK_SIZE > RING_SIZE then Denied else if held + ACK_SIZE < RING_SIZE then Fits else Fills
  }

  /** The bytes of an acknowledgement. */
  function Ack(msgType: nat, pktId: u16, qos: nat): (bs: seq<byte>)
    ensures |bs| == ACK_SIZE
  {
    FixedHeader(msgType, 0, qos, 0, 2) + U16(pktId)
  }

  /** An acknowledgement goes into the ring if it is granted. */
  function Acked(a: Output, msgType: nat, pktId: u16, qos: nat): Output {
    var g := GrantAt(a.held);
    (if g.Denied? then a else Put(a, Ack(msgType, pktId, qos))).(grants := a.grants + [g])
  }

  /** How many acknowledgements events call for. */
  function Responses(es: seq<Event>): nat {
    if es == [] then 0 else (if es[0].Respond? then 1 else 0) + Responses(es[1..])
  }

  /** The bytes of those that are granted, in order. */
  function AckBytes(es: seq<Event>, gs: seq<Grant>): seq<byte>
    requires |gs| == Responses(es)
  {
    if es == [] then []
    else if es[0].Respond? then
      (if gs[0].Denied? then [] else Ack(es[0].msgType, es[0].pktId, es[0].qos)) + AckBytes(es[1..], gs[1..])
    else AckBytes(es[1..], gs)
  }

  /** Events and their acknowledgements: the bytes put into the ring are those of the granted
      ones, in order; all are granted if the ring has room for all, and bytes are lost exactly
      if one has filled it, which takes as many bytes. */
  ghost predicate Answered(a: Output, b: Output, es: seq<Event>) {
    && a.wire <= b.wire && a.grants <= b.grants && |b.grants| == |a.grants| + Responses(es)
    && var gs := b.grants[|a.grants|..];
      && b.queued == a.queued + AckBytes(es, gs)
      && b.held <= a.held + |AckBytes(es, gs)|
      && b.kept == (a.kept && Fills !in gs)
      && (Fills in gs ==> a.held + |AckBytes(es, gs)| >= RING_SIZE)
      && (a.held + ACK_SIZE * Responses(es) <= RING_SIZE ==> Denied !in gs)
  }

  lemma {:induction false} ResponsesConcat(es: seq<Event>, fs: seq<Event>)
    ensures Responses(es + fs) == Responses(es) + Responses(fs)
    decreases |es|
  {
    if es == [] {
      assert es + fs == fs;
    } else {
      assert (es + fs)[1..] == es[1..] + fs;
      ResponsesConcat(es[1..], fs);
    }
  }

  lemma {:induction false} AckBytesConcat(es: seq<Event>, fs: seq<Event>, gs: seq<Grant>, hs: seq<Grant>)
    requires |gs| == Responses(es) && |hs| == Responses(fs) && |gs + hs| == Responses(es + fs)
    ensures AckBytes(es + fs, gs + hs) == AckBytes(es, gs) + AckBytes(fs, hs)
    decreases |es|
  {
    hide Ack;
    if es == [] {
      assert es + fs == fs && gs + hs == hs;
    } else {
      assert (es + fs)[1..] == es[1..] + fs;
      ResponsesConcat(es[1..], fs);
      if es[0].Respond? {
        assert (gs + hs)[1..] == gs[1..] + hs;
        AckBytesConcat(es[1..], fs, gs[1..], hs);
        Assoc(if gs[0].Denied? then [] else Ack(es[0].msgType, es[0].pktId, es[0].qos),
              AckBytes(es[1..], gs[1..]), AckBytes(fs, hs));
      } else {
        AckBytesConcat(es[1..], fs, gs, hs);
      }
    }
  }

  lemma {:induction false} AckBytesSize(es: seq<Event>, gs: seq<Grant>)
    requires |gs| == Responses(es)
    ensures |AckBytes(es, gs)| <= ACK_SIZE * Responses(es)
    decreases |es|
  {
    hide Ack;
    if es != [] {
      AckBytesSize(es[1..], if es[0].Respond? then gs[1..] else gs);
    }
  }

  /** What holds for two stretches of events holds for both together. */
  lemma AnsweredThen(a: Output, b: Output, c: Output, es: seq<Event>, fs: seq<Event>)
    requires Answered(a, b, es) && Answered(b, c, fs)
    ensures Answered(a, c, es + fs)
  {
    hide AckBytes, Responses;
    var gs, hs := b.grants[|a.grants|..], c.grants[|b.grants|..];
    assert c.grants[|a.grants|..] == gs + hs;
    ResponsesConcat(es, fs);
    AckBytesConcat(es, fs, gs, hs);
    AckBytesSize(es, gs);
    Assoc(a.queued, AckBytes(es, gs), AckBytes(fs, hs));
  }

  /** The same along a growing list of events. */
  lemma AnsweredOn(a: Output, b: Output, c: Output, es: seq<Event>, fs: seq<Event>)
    requires es <= fs && Answered(a, b, es) && Answered(b, c, fs[|es|..])
    ensures Answered(a, c, fs)
  {
    assert fs == es + fs[|es|..];
    hide Answered;
    AnsweredThen(a, b, c, es, fs[|es|..]);
  }

  lemma {:induction false} NoResponses(es: seq<Event>)
    requires forall i :: 0 <= i < |es| ==> !es[i].Respond?
    ensures Responses(es) == 0 && AckBytes(es, []) == []
    decreases |es|
  {
    if es != [] {
      NoResponses(es[1..]);
    }
  }

  /** Events without acknowledgements leave the output alone. */
  lemma AnsweredNone(a: Output, es: seq<Event>)
    requires forall i :: 0 <= i < |es| ==> !es[i].Respond?
    ensures Answered(a, a, es)
  {
    NoResponses(es);
    assert a.grants[|a.grants|..] == [] && a.queued + [] == a.queued;
  }

  /** One acknowledgement, after which TCP may take bytes. */
  lemma AnsweredOne(a: Output, b: Output, msgType: nat, pktId: u16, qos: nat)
    requires a.held < RING_SIZE && Sends(Acked(a, msgType, pktId, qos), b)
    ensures Answered(a, b, [Respond(msgType, pktId, qos)])
  {
    hide Ack;
    var e, g := Respond(msgType, pktId, qos), GrantAt(a.held);
    assert b.grants[|a.grants|..] == [g];
    assert [e][1..] == [] && [g][1..] == [];
    assert AckBytes([e], [g]) == if g.Denied? then [] else Ack(msgType, pktId, qos);
    assert a.queued + [] == a.queued;
  }

  lemma SendsThen(a: Output, b: Output, c: Output)
    requires Sends(a, b) && Sends(b, c)
    ensures Sends(a, c)
  {
  }

  /** The space check, for an acknowledgement. */
  lemma AckAdmitted(held: nat)
    ensures AdmitsAt(held, 2) <==> !GrantAt(held).Denied?
  {
    VarLenSize(2);
  }
}
