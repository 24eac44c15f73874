/** What the request queue means: requests in order of arrival, each with the seconds left
    until it times out. The queue in libraries/mqtt_patched.c stores only the difference to
    the request before; module MqttRequests shows that it keeps exactly this list. */
module MqttDeadlines {
  import opened Bytes

  /** Seconds a request may stay unanswered (src/win32/stubs/lwip/mqtt_opts.h). */
  const REQ_TIMEOUT := 30
  /** Seconds between two runs of the cyclic timer. */
  const CYCLIC_INTERVAL := 5

  /** A caller's callback, `None` for a null function pointer. */
  type Callback = Option<nat>

  datatype Pending = Pending(pktId: u16, cb: Callback, left: nat)

  predicate Sorted(q: seq<Pending>) {
    forall i, j :: 0 <= i < j < |q| ==> q[i].left <= q[j].left
  }

  /** Every queue the client builds: in deadline order and within the timeout. */
  predicate Orderly(q: seq<Pending>) {
    Sorted(q) && forall i :: 0 <= i < |q| ==> q[i].left <= REQ_TIMEOUT
  }

  function Append(q: seq<Pending>, pktId: u16, cb: Callback): seq<Pending> {
    q + [Pending(pktId, cb, REQ_TIMEOUT)]
  }

  /** Position of the oldest request with a packet identifier, |q| when there is none. */
  function Find(q: seq<Pending>, pktId: u16): (i: nat)
    ensures i <= |q|
    ensures i < |q| ==> q[i].pktId == pktId
    ensures forall k :: 0 <= k < i ==> q[k].pktId != pktId
  {
    if q == [] || q[0].pktId == pktId then 0 else 1 + Find(q[1..], pktId)
  }

  function Without(q: seq<Pending>, i: nat): (r: seq<Pending>)
    requires i < |q|
    ensures |r| == |q| - 1
  {
    q[..i] + q[i + 1..]
  }

  function Take(q: seq<Pending>, pktId: u16): seq<Pending> {
    var i := Find(q, pktId);
    if i < |q| then Without(q, i) else q
  }

  /** How many requests time out when `t` seconds have passed: all that are due earlier and
      the first of those due exactly then. */
  function Fired(q: seq<Pending>, t: nat): (n: nat)
    ensures n <= |q|
  {
    if q == [] || t == 0 || q[0].left > t then 0
    else if q[0].left == t then 1
    else 1 + Fired(q[1..], t)
  }

  /** Everyone's deadline `t` seconds later. */
  function Aged(q: seq<Pending>, t: nat): (r: seq<Pending>)
    ensures |r| == |q|
    ensures forall i {:trigger r[i]} :: 0 <= i < |q| && t <= q[i].left ==> r[i] == q[i].(left := q[i].left - t)
  {
    if q == [] then []
    else [q[0].(left := if t <= q[0].left then q[0].left - t else 0)] + Aged(q[1..], t)
  }

  /** Fired requests are exactly those due before `t` and the first one due at `t`. */
  lemma {:induction false} FiredAreDue(q: seq<Pending>, t: nat)
    requires Sorted(q) && t > 0
    ensures forall i :: 0 <= i < |q| ==>
      (i < Fired(q, t) <==> q[i].left < t || (q[i].left == t && forall k :: 0 <= k < i ==> q[k].left < t))
    decreases |q|
  {
    if q == [] || q[0].left > t {
    } else if q[0].left == t {
    } else {
      var rest := q[1..];
      FiredAreDue(rest, t);
      forall i | 0 <= i < |q|
        ensures i < Fired(q, t) <==> q[i].left < t || (q[i].left == t && forall k :: 0 <= k < i ==> q[k].left < t)
      {
        if i > 0 {
          assert rest[i - 1] == q[i];
          assert (forall k :: 0 <= k < i ==> q[k].left < t) <==> (forall k :: 0 <= k < i - 1 ==> rest[k].left < t) by {
            if forall k :: 0 <= k < i - 1 ==> rest[k].left < t {
              forall k | 0 <= k < i ensures q[k].left < t {
                if k > 0 { assert rest[k - 1] == q[k]; }
              }
            }
          }
        }
      }
    }
  }

  lemma SurvivorsNotDue(q: seq<Pending>, t: nat)
    requires Sorted(q)
    ensures forall i :: Fired(q, t) <= i < |q| ==> t <= q[i].left
  {
    if t > 0 {
      FiredAreDue(q, t);
    }
  }

  /** Callbacks of a stretch of requests, null ones skipped. */
  function Callbacks(q: seq<Pending>): seq<nat> {
    if q == [] then [] else CallbackOf(q[0]) + Callbacks(q[1..])
  }

  function CallbackOf(p: Pending): seq<nat> {
    if p.cb.Some? then [p.cb.value] else []
  }

  /** The queue after `t` seconds, the way the source walks it. */
  function Elapse(q: seq<Pending>, t: nat): seq<Pending> {
    if q == [] || t == 0 || q[0].left > t then Aged(q, t)
    else if q[0].left == t then Aged(q[1..], t)
    else Elapse(q[1..], t)
  }

  /** The callbacks that `t` seconds trigger, in order. */
  function Timeouts(q: seq<Pending>, t: nat): seq<nat> {
    if q == [] || t == 0 || q[0].left > t then []
    else if q[0].left == t then CallbackOf(q[0])
    else CallbackOf(q[0]) + Timeouts(q[1..], t)
  }

  lemma ElapseCons(p: Pending, q: seq<Pending>, t: nat)
    requires 0 < t
    ensures p.left <= t ==> Elapse([p] + q, t) == if p.left == t then Aged(q, t) else Elapse(q, t)
    ensures p.left <= t ==> Timeouts([p] + q, t) == CallbackOf(p) + if p.left == t then [] else Timeouts(q, t)
    ensures p.left > t ==> Elapse([p] + q, t) == Aged([p] + q, t) && Timeouts([p] + q, t) == []
  {
    assert ([p] + q)[1..] == q;
  }

  /** The walk fires a prefix of the queue and brings the rest forward by `t`. */
  lemma {:induction false} ElapseFires(q: seq<Pending>, t: nat)
    ensures Elapse(q, t) == Aged(q[Fired(q, t)..], t)
    ensures Timeouts(q, t) == Callbacks(q[..Fired(q, t)])
  {
    var n := Fired(q, t);
    if n == 0 {
      assert q[0..] == q;
    } else if q[0].left == t {
      var one := q[..n];
      assert one[0] == q[0] && one[1..] == [];
      assert Callbacks(one) == CallbackOf(q[0]) + Callbacks(one[1..]);
    } else {
      ElapseFires(q[1..], t);
      assert q[..n][1..] == q[1..][..n - 1] && q[n..] == q[1..][n - 1..];
    }
  }

  lemma AppendOrderly(q: seq<Pending>, pktId: u16, cb: Callback)
    requires Orderly(q)
    ensures Orderly(Append(q, pktId, cb))
  {
  }

  lemma WithoutOrderly(q: seq<Pending>, i: nat)
    requires Orderly(q) && i < |q|
    ensures Orderly(Without(q, i))
  {
  }

  lemma ElapseOrderly(q: seq<Pending>, t: nat)
    requires Orderly(q)
    ensures Orderly(Elapse(q, t))
  {
    SurvivorsNotDue(q, t);
    ElapseFires(q, t);
    var rest := q[Fired(q, t)..];
    assert Orderly(rest);
  }

  lemma {:induction false} CallbacksConcat(a: seq<Pending>, b: seq<Pending>)
    ensures Callbacks(a + b) == Callbacks(a) + Callbacks(b)
    decreases |a|
  {
    if a == [] {
      assert a + b == b;
    } else {
      assert (a + b)[1..] == a[1..] + b;
      CallbacksConcat(a[1..], b);
      Assoc(CallbackOf(a[0]), Callbacks(a[1..]), Callbacks(b));
    }
  }

  lemma CallbacksOfOne(p: Pending)
    ensures Callbacks([p]) == CallbackOf(p)
  {
    assert [p][1..] == [];
    assert CallbackOf(p) + [] == CallbackOf(p);
  }

  /** Queueing a request adds its callback. */
  lemma AppendCallbacks(q: seq<Pending>, pktId: u16, cb: Callback)
    ensures Callbacks(Append(q, pktId, cb)) == Callbacks(q) + CallbackOf(Pending(pktId, cb, REQ_TIMEOUT))
  {
    CallbacksConcat(q, [Pending(pktId, cb, REQ_TIMEOUT)]);
    CallbacksOfOne(Pending(pktId, cb, REQ_TIMEOUT));
  }

  /** Taking a request out removes its callback and no other. */
  lemma WithoutCallbacks(q: seq<Pending>, i: nat)
    requires i < |q|
    ensures multiset(Callbacks(q)) == multiset(Callbacks(Without(q, i))) + multiset(CallbackOf(q[i]))
  {
    hide Callbacks, CallbackOf;
    assert q == (q[..i] + [q[i]]) + q[i + 1..];
    MultisetMiddle(Callbacks(q[..i]), CallbackOf(q[i]), Callbacks(q[i + 1..]));
    CallbacksConcat(q[..i] + [q[i]], q[i + 1..]);
    CallbacksConcat(q[..i], [q[i]]);
    CallbacksOfOne(q[i]);
    CallbacksConcat(q[..i], q[i + 1..]);
  }

  lemma MultisetMiddle(a: seq<nat>, b: seq<nat>, c: seq<nat>)
    ensures multiset((a + b) + c) == multiset(a + c) + multiset(b)
  {
  }

  lemma {:induction false} AgedCallbacks(q: seq<Pending>, t: nat)
    ensures Callbacks(Aged(q, t)) == Callbacks(q)
  {
    if q != [] {
      AgedCallbacks(q[1..], t);
    }
  }

  /** Time splits the callbacks into those it triggers and those still pending. */
  lemma {:induction false} ElapseCallbacks(q: seq<Pending>, t: nat)
    ensures Callbacks(q) == Timeouts(q, t) + Callbacks(Elapse(q, t))
  {
    if q == [] || t == 0 || q[0].left > t {
      AgedCallbacks(q, t);
      assert [] + Callbacks(q) == Callbacks(q);
    } else if q[0].left == t {
      AgedCallbacks(q[1..], t);
    } else {
      ElapseCallbacks(q[1..], t);
      Assoc(CallbackOf(q[0]), Timeouts(q[1..], t), Callbacks(Elapse(q[1..], t)));
    }
  }
}
