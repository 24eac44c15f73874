/** What becomes of the callbacks of accepted requests: each one is called, given up, or
    still pending. Here for received bytes and for sent ones; class MqttClient.Client keeps
    the account over whole runs. */
module MqttAccounts {
  import opened Bytes
  import opened MqttMessages
  import opened MqttDeadlines
  import opened MqttReceive

  function CalledBy(e: Event): seq<nat> {
    match e
    case Completed(cb, _) => [cb]
    case TimedOut(cb) => [cb]
    case _ => []
  }

  /** Callbacks of requests among the reported events, in order. */
  function Called(es: seq<Event>): seq<nat> {
    if es == [] then [] else CalledBy(es[0]) + Called(es[1..])
  }

  lemma {:induction false} CalledConcat(a: seq<Event>, b: seq<Event>)
    ensures Called(a + b) == Called(a) + Called(b)
    decreases |a|
  {
    if a == [] {
      assert a + b == b;
    } else {
      assert (a + b)[1..] == a[1..] + b;
      CalledConcat(a[1..], b);
      Assoc(CalledBy(a[0]), Called(a[1..]), Called(b));
    }
  }

  lemma CalledOne(e: Event)
    ensures Called([e]) == CalledBy(e)
  {
    assert [e][1..] == [];
    assert CalledBy(e) + [] == CalledBy(e);
  }

  /** Callbacks a handler or the parser has called or left pending. */
  function Kept(es: seq<Event>, pending: seq<Pending>): multiset<nat> {
    multiset(Called(es)) + multiset(Callbacks(pending))
  }

  lemma NoRequests(es: seq<Event>)
    requires forall i :: 0 <= i < |es| ==> CalledBy(es[i]) == []
    ensures Called(es) == []
  {
    if es != [] {
      NoRequests(es[1..]);
    }
  }

  lemma CompletedCalled(cb: Callback, ok: bool)
    ensures Called(CompletedEvents(cb, ok)) == if cb.Some? then [cb.value] else []
  {
    if cb.Some? {
      CalledOne(Completed(cb.value, ok));
    }
  }

  lemma ReplyAccounts(ss: Session, msgType: nat, pktId: u16, body: seq<byte>)
    ensures var r := HandleReply(ss, msgType, pktId, body);
      && Kept(r.events, r.session.pending) <= multiset(Callbacks(ss.pending))
      && (r.status.Accepted? ==> Kept(r.events, r.session.pending) == multiset(Callbacks(ss.pending)))
  {
    hide Callbacks, Called, CompletedEvents, Without;
    NoRequests([]);
    var i := Find(ss.pending, pktId);
    if i < |ss.pending| {
      WithoutCallbacks(ss.pending, i);
      if msgType == SUBACK && |body| < 3 {
      } else {
        CompletedCalled(ss.pending[i].cb, msgType == SUBACK ==> body[2] < 3);
      }
    }
  }

  /** Only a SUBACK too short to hold a return code loses a callback. */
  lemma HandleAccounts(ss: Session, control: byte, hdrLen: nat, first: bool, body: seq<byte>, rest: nat)
    requires hdrLen <= BUFFER_LEN
    ensures var r := Handle(ss, control, hdrLen, first, body, rest);
      && Kept(r.events, r.session.pending) <= multiset(Callbacks(ss.pending))
      && (r.status.Accepted? || body == [] ==> Kept(r.events, r.session.pending) == multiset(Callbacks(ss.pending)))
  {
    hide Callbacks, HandleReply, Called, PayloadEvents;
    var msgType, r := PacketType(control), Handle(ss, control, hdrLen, first, body, rest);
    if msgType == SUBACK || msgType == UNSUBACK || msgType == PUBCOMP || msgType == PUBACK {
      if |body| >= 2 && FromU16(body[0], body[1]) != 0 {
        ReplyAccounts(ss, msgType, FromU16(body[0], body[1]), body);
      } else {
        NoRequests(r.events);
      }
    } else {
      HandleQuiet(ss, control, hdrLen, first, body, rest);
      NoRequests(r.events);
    }
  }

  /** Other packets leave the requests alone. */
  lemma HandleQuiet(ss: Session, control: byte, hdrLen: nat, first: bool, body: seq<byte>, rest: nat)
    requires hdrLen <= BUFFER_LEN
    requires PacketType(control) !in {SUBACK, UNSUBACK, PUBCOMP, PUBACK}
    ensures var r := Handle(ss, control, hdrLen, first, body, rest);
      r.session.pending == ss.pending && forall i :: 0 <= i < |r.events| ==> CalledBy(r.events[i]) == []
  {
  }

  /** Over any segment, whatever it holds, nothing is called twice and nothing is made up;
      as long as the connection stays up nothing is lost either. */
  lemma {:induction false} FeedAccounts(p: Phase, ss: Session, s: seq<byte>)
    requires ValidPhase(p)
    ensures var o := Feed(p, ss, s);
      && Kept(o.events, o.session.pending) <= multiset(Callbacks(ss.pending))
      && (o.status.Accepted? ==> Kept(o.events, o.session.pending) == multiset(Callbacks(ss.pending)))
    decreases |s|
  {
    hide Callbacks, NextRound, Called;
    if s == [] {
      NoRequests([]);
    } else {
      var r := NextRound(p, ss, s);
      RoundAccounts(p, ss, s);
      if r.status.Accepted? {
        var o := Feed(r.phase, r.session, s[r.used..]);
        FeedAccounts(r.phase, r.session, s[r.used..]);
        CalledConcat(r.events, o.events);
      }
    }
  }

  lemma KeptNothing(q: seq<Pending>)
    ensures Kept([], q) == multiset(Callbacks(q))
  {
  }

  lemma RoundAccounts(p: Phase, ss: Session, s: seq<byte>)
    requires ValidPhase(p) && s != []
    ensures var r := NextRound(p, ss, s);
      && Kept(r.events, r.session.pending) <= multiset(Callbacks(ss.pending))
      && (r.status.Accepted? ==> Kept(r.events, r.session.pending) == multiset(Callbacks(ss.pending)))
  {
    hide Callbacks, Kept, Handle, BodyLen;
    KeptNothing(ss.pending);
    match p {
      case Header(h) =>
        HandleAccounts(ss, (h + [s[0]])[0], |h| + 1, true, [], 0);
      case Body(h, got) =>
        var rest := BodyLen(h) - got;
        var n := FrameLen(|s|, rest, |h|);
        HandleAccounts(ss, h[0], |h|, got == 0, s[..n], rest - n);
    }
  }

  /** Requests that wait for a numbered reply, and those that only wait to be sent. */
  function Numbered(q: seq<Pending>): seq<Pending> {
    if q == [] then [] else (if q[0].pktId != 0 then [q[0]] else []) + Numbered(q[1..])
  }

  function Unnumbered(q: seq<Pending>): seq<Pending> {
    if q == [] then [] else (if q[0].pktId == 0 then [q[0]] else []) + Unnumbered(q[1..])
  }

  function SentEvents(q: seq<Pending>): seq<Event> {
    if q == [] then [] else CompletedEvents(q[0].cb, true) + SentEvents(q[1..])
  }

  /** Taking requests without a number one at a time takes them all, oldest first. */
  ghost predicate TakesOldest(q: seq<Pending>) {
    var i := Find(q, 0);
    if i == |q| then Numbered(q) == q && Unnumbered(q) == []
    else Numbered(Without(q, i)) == Numbered(q) && Unnumbered(q) == [q[i]] + Unnumbered(Without(q, i))
  }

  lemma {:induction false} TakeUnnumbered(q: seq<Pending>)
    ensures TakesOldest(q)
  {
    if q == [] {
    } else if q[0].pktId == 0 {
      WithoutFirst(q, 0);
    } else {
      assert q == [q[0]] + q[1..];
      TakeUnnumbered(q[1..]);
      TakesOldestCons(q[0], q[1..]);
    }
  }

  lemma TakesOldestCons(p: Pending, q: seq<Pending>)
    requires p.pktId != 0 && TakesOldest(q)
    ensures TakesOldest([p] + q)
  {
    hide Without, Numbered, Unnumbered;
    var i := Find(q, 0);
    assert ([p] + q)[1..] == q && Find([p] + q, 0) == i + 1;
    NumberedCons(p, q);
    if i < |q| {
      WithoutFirst([p] + q, i + 1);
      NumberedCons(p, Without(q, i));
    }
  }

  lemma WithoutFirst(q: seq<Pending>, i: nat)
    requires i < |q|
    ensures Without(q, i) == if i == 0 then q[1..] else [q[0]] + Without(q[1..], i - 1)
  {
  }

  lemma NumberedCons(p: Pending, q: seq<Pending>)
    requires p.pktId != 0
    ensures Numbered([p] + q) == [p] + Numbered(q) && Unnumbered([p] + q) == Unnumbered(q)
  {
    assert ([p] + q)[1..] == q;
    assert [] + Unnumbered(q) == Unnumbered(q);
  }

  lemma {:induction false} SentAccounts(q: seq<Pending>)
    ensures Kept(SentEvents(Unnumbered(q)), Numbered(q)) == multiset(Callbacks(q))
  {
    hide Called, CallbackOf, Numbered, Unnumbered, SentEvents, Kept, Callbacks;
    if q == [] {
      SentNone();
    } else {
      SentAccounts(q[1..]);
      SentStep(q[0], q[1..]);
      assert q == [q[0]] + q[1..];
    }
  }

  lemma SentNone()
    ensures Kept(SentEvents(Unnumbered([])), Numbered([])) == multiset(Callbacks([]))
  {
    KeptNothing([]);
  }

  lemma SentStep(p: Pending, q: seq<Pending>)
    requires Kept(SentEvents(Unnumbered(q)), Numbered(q)) == multiset(Callbacks(q))
    ensures Kept(SentEvents(Unnumbered([p] + q)), Numbered([p] + q)) == multiset(Callbacks([p] + q))
  {
    hide Called, CallbackOf, SentEvents, CompletedEvents;
    assert ([p] + q)[1..] == q;
    var a, b := Called(SentEvents(Unnumbered(q))), Callbacks(Numbered(q));
    if p.pktId == 0 {
      SentOne(p, Unnumbered(q));
      assert [] + Numbered(q) == Numbered(q);
      AddLeft(CallbackOf(p), a, b, Callbacks(q));
    } else {
      NumberedCons(p, q);
      assert ([p] + Numbered(q))[1..] == Numbered(q);
      AddRight(CallbackOf(p), a, b, Callbacks(q));
    }
  }

  lemma SentOne(p: Pending, more: seq<Pending>)
    ensures Called(SentEvents([p] + more)) == CallbackOf(p) + Called(SentEvents(more))
  {
    hide Called;
    assert ([p] + more)[1..] == more;
    CalledConcat(CompletedEvents(p.cb, true), SentEvents(more));
    CompletedCalled(p.cb, true);
  }

  lemma AddLeft(x: seq<nat>, a: seq<nat>, b: seq<nat>, c: seq<nat>)
    requires multiset(a) + multiset(b) == multiset(c)
    ensures multiset(x + a) + multiset(b) == multiset(x + c)
  {
  }

  lemma AddRight(x: seq<nat>, a: seq<nat>, b: seq<nat>, c: seq<nat>)
    requires multiset(a) + multiset(b) == multiset(c)
    ensures multiset(a) + multiset(x + b) == multiset(x + c)
  {
  }

  function TimeoutEvents(cbs: seq<nat>): seq<Event> {
    seq(|cbs|, i requires 0 <= i < |cbs| => TimedOut(cbs[i]))
  }

  lemma {:induction false} TimeoutsCalled(cbs: seq<nat>)
    ensures Called(TimeoutEvents(cbs)) == cbs
  {
    if cbs != [] {
      assert TimeoutEvents(cbs)[1..] == TimeoutEvents(cbs[1..]);
      TimeoutsCalled(cbs[1..]);
    }
  }

  /** The account of a client: accepted callbacks are called, pending or dropped. */
  ghost predicate Balanced(accepted: multiset<nat>, es: seq<Event>, pending: seq<Pending>, dropped: multiset<nat>) {
    accepted == Kept(es, pending) + dropped
  }

  /** Callbacks that neither a call nor the queue holds any more. */
  function Lost(es: seq<Event>, before: seq<Pending>, after: seq<Pending>): multiset<nat> {
    multiset(Callbacks(before)) - Kept(es, after)
  }

  lemma BalancedThrough(accepted: multiset<nat>, es: seq<Event>, q: seq<Pending>, dropped: multiset<nat>,
                        more: seq<Event>, q': seq<Pending>)
    requires Balanced(accepted, es, q, dropped) && Kept(more, q') <= multiset(Callbacks(q))
    ensures Balanced(accepted, es + more, q', dropped + Lost(more, q, q'))
    ensures Kept(more, q') == multiset(Callbacks(q)) ==> Lost(more, q, q') == multiset{}
    ensures Kept(more, q') == multiset(Callbacks(q)) ==> Balanced(accepted, es + more, q', dropped)
  {
    hide Called, Callbacks;
    CalledConcat(es, more);
    Regroup(multiset(Called(es)), multiset(Called(more)), multiset(Callbacks(q)), multiset(Callbacks(q')), dropped);
  }

  lemma Regroup(a: multiset<nat>, b: multiset<nat>, q: multiset<nat>, q': multiset<nat>, d: multiset<nat>)
    requires b + q' <= q
    ensures a + q + d == a + b + q' + (d + (q - (b + q')))
    ensures b + q' == q ==> a + q + d == a + b + q' + d
  {
  }

  lemma BalancedClosing(accepted: multiset<nat>, es: seq<Event>, q: seq<Pending>, dropped: multiset<nat>, down: seq<Event>)
    requires Balanced(accepted, es, q, dropped) && down in {[], [ConnectionDown]}
    ensures Balanced(accepted, es + down, [], dropped + multiset(Callbacks(q)))
  {
    hide Called;
    NoRequests(down);
    CalledConcat(es, down);
    assert Called(es) + [] == Called(es);
  }

  lemma FeedBalanced(accepted: multiset<nat>, es: seq<Event>, dropped: multiset<nat>, p: Phase, ss: Session, s: seq<byte>)
    requires ValidPhase(p) && Balanced(accepted, es, ss.pending, dropped)
    ensures var o := Feed(p, ss, s);
      var lost := Lost(o.events, ss.pending, o.session.pending);
      && Balanced(accepted, es + o.events, o.session.pending, dropped + lost)
      && (o.status.Accepted? ==> lost == multiset{})
  {
    hide Balanced, Lost, Kept, Feed, Called, Callbacks;
    var o := Feed(p, ss, s);
    FeedAccounts(p, ss, s);
    BalancedThrough(accepted, es, ss.pending, dropped, o.events, o.session.pending);
  }

  lemma SentBalanced(accepted: multiset<nat>, es: seq<Event>, q: seq<Pending>, dropped: multiset<nat>)
    requires Balanced(accepted, es, q, dropped)
    ensures Balanced(accepted, es + SentEvents(Unnumbered(q)), Numbered(q), dropped)
  {
    hide Balanced, Kept, Callbacks;
    SentAccounts(q);
    BalancedThrough(accepted, es, q, dropped, SentEvents(Unnumbered(q)), Numbered(q));
  }

  lemma ElapseBalanced(accepted: multiset<nat>, es: seq<Event>, q: seq<Pending>, dropped: multiset<nat>, t: nat)
    requires Balanced(accepted, es, q, dropped)
    ensures Balanced(accepted, es + TimeoutEvents(Timeouts(q, t)), Elapse(q, t), dropped)
  {
    hide Balanced, Callbacks, Timeouts, Elapse;
    ElapseCallbacks(q, t);
    TimeoutsCalled(Timeouts(q, t));
    BalancedThrough(accepted, es, q, dropped, TimeoutEvents(Timeouts(q, t)), Elapse(q, t));
  }

  lemma AppendBalanced(accepted: multiset<nat>, es: seq<Event>, q: seq<Pending>, dropped: multiset<nat>, pktId: u16, cb: Callback)
    requires Balanced(accepted, es, q, dropped)
    ensures Balanced(accepted + multiset(CallbackOf(Pending(pktId, cb, REQ_TIMEOUT))), es, Append(q, pktId, cb), dropped)
  {
    hide Called, Callbacks, CallbackOf;
    AppendCallbacks(q, pktId, cb);
  }
}
