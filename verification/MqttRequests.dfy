/** The fixed pool of request slots and the delta-encoded timeout queue threaded through it
    (libraries/mqtt_patched.c, lines 279 to 449). A slot that points to itself is free. */
module MqttRequests {
  import opened Bytes
  import opened MqttDeadlines

  const REQ_MAX := 16
  /** The null pointer, among slot numbers. */
  const NIL := -1

  datatype Slot = Slot(next: int, pktId: u16, cb: Callback, diff: nat)

  /** Seconds until the last slot of a chain times out. */
  function Total(chain: seq<Slot>): nat {
    if chain == [] then 0 else chain[0].diff + Total(chain[1..])
  }

  /** The deadlines that a chain of slots encodes, `base` seconds added to each. */
  function Deadlines(chain: seq<Slot>, base: nat): (q: seq<Pending>)
    ensures |q| == |chain|
    decreases |chain|
  {
    if chain == [] then []
    else
      var s := chain[0];
      [Pending(s.pktId, s.cb, base + s.diff)] + Deadlines(chain[1..], base + s.diff)
  }

  lemma {:induction false} DeadlinesFacts(chain: seq<Slot>, base: nat)
    ensures forall k :: 0 <= k < |chain| ==> base <= Deadlines(chain, base)[k].left <= base + Total(chain)
    ensures forall k :: 0 <= k < |chain| ==>
      Deadlines(chain, base)[k].pktId == chain[k].pktId && Deadlines(chain, base)[k].cb == chain[k].cb
    ensures Sorted(Deadlines(chain, base))
    decreases |chain|
  {
    if chain != [] {
      DeadlinesFacts(chain[1..], base + chain[0].diff);
    }
  }

  lemma {:induction false} DeadlinesAppend(chain: seq<Slot>, s: Slot, base: nat)
    ensures Deadlines(chain + [s], base)
         == Deadlines(chain, base) + [Pending(s.pktId, s.cb, base + Total(chain) + s.diff)]
    ensures Total(chain + [s]) == Total(chain) + s.diff
    decreases |chain|
  {
    if chain == [] {
      assert [] + [s] == [s];
    } else {
      assert (chain + [s])[1..] == chain[1..] + [s];
      DeadlinesAppend(chain[1..], s, base + chain[0].diff);
    }
  }

  /** Equal requests, whatever their links. */
  ghost predicate SameRequests(a: seq<Slot>, b: seq<Slot>) {
    |a| == |b| && forall k :: 0 <= k < |a| ==> a[k].(next := 0) == b[k].(next := 0)
  }

  lemma {:induction false} DeadlinesFrame(a: seq<Slot>, b: seq<Slot>, base: nat)
    requires SameRequests(a, b)
    ensures Deadlines(a, base) == Deadlines(b, base) && Total(a) == Total(b)
    decreases |a|
  {
    if a != [] {
      assert a[0].(next := 0) == b[0].(next := 0);
      DeadlinesFrame(a[1..], b[1..], base + a[0].diff);
    }
  }

  /** Taking seconds off the first difference brings every deadline forward. */
  lemma {:induction false} DeadlinesShift(chain: seq<Slot>, base: nat, t: nat)
    requires t <= base
    ensures Deadlines(chain, base - t) == Aged(Deadlines(chain, base), t)
    decreases |chain|
  {
    if chain != [] {
      assert Deadlines(chain, base)[1..] == Deadlines(chain[1..], base + chain[0].diff);
      DeadlinesShift(chain[1..], base + chain[0].diff, t);
    }
  }

  /** The chain without its first slot, whose difference the second one inherits. */
  function Tail(chain: seq<Slot>): (r: seq<Slot>)
    requires chain != []
    ensures |r| == |chain| - 1
  {
    if |chain| == 1 then []
    else [chain[1].(diff := chain[0].diff + chain[1].diff)] + chain[2..]
  }

  lemma DeadlinesTail(chain: seq<Slot>, base: nat)
    requires chain != []
    ensures Deadlines(Tail(chain), base) == Deadlines(chain, base)[1..]
    ensures Total(Tail(chain)) <= Total(chain)
  {
    if |chain| > 1 {
      assert chain[1..][1..] == chain[2..];
      assert Tail(chain)[1..] == chain[2..];
    }
  }

  /** The chain without its k-th slot. */
  function Unchain(chain: seq<Slot>, k: nat): (r: seq<Slot>)
    requires k < |chain|
    ensures |r| == |chain| - 1
  {
    if k == 0 then Tail(chain) else [chain[0]] + Unchain(chain[1..], k - 1)
  }

  /** Unchaining a request leaves every other deadline as it was. */
  lemma {:induction false} DeadlinesUnchain(chain: seq<Slot>, k: nat, base: nat)
    requires k < |chain|
    ensures Deadlines(Unchain(chain, k), base) == Without(Deadlines(chain, base), k)
    ensures Total(Unchain(chain, k)) <= Total(chain)
    decreases k
  {
    if k == 0 {
      DeadlinesTail(chain, base);
      assert Without(Deadlines(chain, base), 0) == Deadlines(chain, base)[1..];
    } else {
      var rest := Unchain(chain[1..], k - 1);
      DeadlinesUnchain(chain[1..], k - 1, base + chain[0].diff);
      WithoutTail(Deadlines(chain, base), k);
      assert Unchain(chain, k)[0] == chain[0] && Unchain(chain, k)[1..] == rest;
    }
  }

  lemma WithoutTail(q: seq<Pending>, i: nat)
    requires 0 < i < |q|
    ensures Without(q, i) == [q[0]] + Without(q[1..], i - 1)
  {
  }

  lemma {:induction false} UnchainAt(chain: seq<Slot>, k: nat, j: nat)
    requires k < |chain| && j < |chain| - 1
    ensures j < k ==> Unchain(chain, k)[j] == chain[j]
    ensures j == k ==> Unchain(chain, k)[j] == chain[k + 1].(diff := chain[k].diff + chain[k + 1].diff)
    ensures j > k ==> Unchain(chain, k)[j] == chain[j + 1]
    decreases k
  {
    if k > 0 && j > 0 {
      UnchainAt(chain[1..], k - 1, j - 1);
    }
  }

  /** Link to the k-th slot of a chain, null past its end. */
  function At(order: seq<int>, k: nat): int {
    if k < |order| then order[k] else NIL
  }

  ghost predicate Ranks(order: seq<int>, rank: map<int, int>) {
    forall k :: 0 <= k < |order| ==> order[k] in rank && rank[order[k]] == k
  }

  /** No slot occurs twice: each has one position. */
  ghost predicate Distinct(order: seq<int>) {
    exists rank :: Ranks(order, rank)
  }

  ghost predicate InRange(order: seq<int>, n: nat) {
    forall k :: 0 <= k < |order| ==> 0 <= order[k] < n
  }

  function ChainOf(ss: seq<Slot>, order: seq<int>): (c: seq<Slot>)
    requires InRange(order, |ss|)
    ensures |c| == |order| && forall k {:trigger c[k]} :: 0 <= k < |c| ==> c[k] == ss[order[k]]
  {
    seq(|order|, k requires 0 <= k < |order| => ss[order[k]])
  }

  /** The slots threaded, in order, from `head`. */
  ghost predicate Threaded(ss: seq<Slot>, head: int, order: seq<int>) {
    && Distinct(order)
    && InRange(order, |ss|)
    && head == At(order, 0)
    && (forall k {:trigger ss[order[k]]} :: 0 <= k < |order| ==> ss[order[k]].next == At(order, k + 1))
  }

  /** The remaining slots are free, or held by the operation under way. */
  ghost predicate FreeOrHeld(ss: seq<Slot>, order: seq<int>) {
    forall i :: 0 <= i < |ss| && i !in order ==> ss[i].next == i || ss[i].next == NIL
  }

  /** The slot numbers below `n`. */
  ghost function Numbers(n: nat): (s: set<int>)
    ensures |s| == n && forall i :: i in s <==> 0 <= i < n
  {
    if n == 0 then {} else Numbers(n - 1) + {n - 1}
  }

  ghost function Members(order: seq<int>): (s: set<int>)
    ensures forall i :: i in s <==> i in order
  {
    if order == [] then {} else Members(order[..|order| - 1]) + {order[|order| - 1]}
  }

  lemma {:induction false} MembersCount(order: seq<int>)
    requires Distinct(order)
    ensures |Members(order)| == |order|
    decreases |order|
  {
    if order != [] {
      var n := |order| - 1;
      var rank :| Ranks(order, rank);
      assert Ranks(order[..n], rank);
      MembersCount(order[..n]);
      assert rank[order[n]] == n;
      assert order[n] !in order[..n];
    }
  }

  lemma {:induction false} SubsetCount(a: set<int>, n: nat)
    requires a <= Numbers(n)
    ensures |a| <= n && (|a| == n ==> a == Numbers(n))
  {
    if n == 0 {
      assert a == {};
    } else {
      var m := n - 1;
      SubsetCount(a - {m}, m);
      if m in a {
        assert a == (a - {m}) + {m};
      } else {
        assert a == a - {m};
      }
    }
  }

  /** A chain of slots that are all different is no longer than there are slots, and as long
      exactly if it holds them all. */
  lemma Slots(order: seq<int>, n: nat)
    requires Distinct(order) && InRange(order, n)
    ensures |order| <= n
    ensures |order| == n <==> forall i :: 0 <= i < n ==> i in order
  {
    MembersCount(order);
    SubsetCount(Members(order), n);
    if forall i :: 0 <= i < n ==> i in order {
      assert Members(order) == Numbers(n);
    }
    if |order| == n {
      assert forall i :: 0 <= i < n ==> i in Numbers(n);
    }
  }

  /** A queued slot does not point to itself. */
  lemma Linked(ss: seq<Slot>, head: int, order: seq<int>, i: int)
    requires Threaded(ss, head, order) && i in order
    ensures ss[i].next != i
  {
    var k :| 0 <= k < |order| && order[k] == i;
    var rank :| Ranks(order, rank);
    assert ss[order[k]].next == At(order, k + 1);
    if k + 1 < |order| {
      assert rank[order[k]] == k && rank[order[k + 1]] == k + 1;
    }
  }

  /** Slots after `r` has been linked behind the last slot of a chain. */
  function LinkedLast(ss: seq<Slot>, order: seq<int>, r: int, s: Slot): (tt: seq<Slot>)
    requires InRange(order, |ss|) && 0 <= r < |ss|
    ensures |tt| == |ss|
  {
    if order == [] then ss[r := s]
    else ss[r := s][order[|order| - 1] := ss[order[|order| - 1]].(next := r)]
  }

  lemma LinkedLastThreaded(ss: seq<Slot>, head: int, order: seq<int>, r: int, s: Slot)
    requires Threaded(ss, head, order) && 0 <= r < |ss| && r !in order && s.next == NIL
    ensures Threaded(LinkedLast(ss, order, r, s), if order == [] then r else head, order + [r])
  {
    var tt, all := LinkedLast(ss, order, r, s), order + [r];
    assert forall j :: 0 <= j < |order| ==> all[j] == order[j];
    var rank :| Ranks(order, rank);
    assert Ranks(all, rank[r := |order|]);
    forall j | 0 <= j < |all| ensures tt[all[j]].next == At(all, j + 1) {
      if j + 1 < |order| {
        assert order[j] != order[|order| - 1] && order[j] != r;
        assert tt[all[j]] == ss[order[j]];
      }
    }
  }

  lemma ChainOfSnoc(ss: seq<Slot>, order: seq<int>, r: int)
    requires InRange(order, |ss|) && 0 <= r < |ss|
    ensures InRange(order + [r], |ss|)
    ensures ChainOf(ss, order + [r]) == ChainOf(ss, order) + [ss[r]]
  {
    assert InRange(order + [r], |ss|);
  }

  lemma LinkedLastChain(ss: seq<Slot>, head: int, order: seq<int>, r: int, s: Slot)
    requires Threaded(ss, head, order) && 0 <= r < |ss| && r !in order
    ensures LinkedLast(ss, order, r, s)[r] == s
    ensures SameRequests(ChainOf(LinkedLast(ss, order, r, s), order), ChainOf(ss, order))
  {
  }

  lemma LinkedLastDeadlines(ss: seq<Slot>, head: int, order: seq<int>, r: int, s: Slot)
    requires Threaded(ss, head, order) && 0 <= r < |ss| && r !in order
    requires InRange(order + [r], |ss|)
    ensures Deadlines(ChainOf(LinkedLast(ss, order, r, s), order + [r]), 0)
         == Deadlines(ChainOf(ss, order), 0) + [Pending(s.pktId, s.cb, Total(ChainOf(ss, order)) + s.diff)]
    ensures Total(ChainOf(LinkedLast(ss, order, r, s), order + [r])) == Total(ChainOf(ss, order)) + s.diff
  {
    var tt, chain := LinkedLast(ss, order, r, s), ChainOf(ss, order);
    var before := ChainOf(tt, order);
    LinkedLastChain(ss, head, order, r, s);
    DeadlinesFrame(before, chain, 0);
    ChainOfSnoc(tt, order, r);
    DeadlinesAppend(before, s, 0);
  }

  function Dropped(order: seq<int>, k: nat): (r: seq<int>)
    requires k < |order|
    ensures |r| == |order| - 1
    ensures forall j {:trigger r[j]} :: 0 <= j < |r| ==> r[j] == if j < k then order[j] else order[j + 1]
  {
    order[..k] + order[k + 1..]
  }

  /** Slots after the k-th of a chain has been unchained. */
  function Unlinked(ss: seq<Slot>, order: seq<int>, k: nat): (tt: seq<Slot>)
    requires InRange(order, |ss|) && k < |order|
    ensures |tt| == |ss|
  {
    var a := if k == 0 then ss else ss[order[k - 1] := ss[order[k - 1]].(next := At(order, k + 1))];
    var b := if k + 1 == |order| then a
             else a[order[k + 1] := a[order[k + 1]].(diff := ss[order[k + 1]].diff + ss[order[k]].diff)];
    b[order[k] := b[order[k]].(next := NIL)]
  }

  lemma UnlinkedAt(ss: seq<Slot>, head: int, order: seq<int>, k: nat, j: nat)
    requires Threaded(ss, head, order) && k < |order| && j < |order|
    ensures var s := ss[order[j]];
      Unlinked(ss, order, k)[order[j]]
      == if j == k then s.(next := NIL)
         else if j + 1 == k then s.(next := At(order, k + 1))
         else if j == k + 1 then s.(diff := ss[order[k]].diff + s.diff)
         else s
  {
  }

  lemma DroppedDistinct(order: seq<int>, k: nat)
    requires Distinct(order) && k < |order|
    ensures Distinct(Dropped(order, k)) && order[k] !in Dropped(order, k)
  {
    var rank :| Ranks(order, rank);
    assert Ranks(Dropped(order, k), map s | s in rank :: if rank[s] < k then rank[s] else rank[s] - 1);
  }

  /** Every slot but `r` is free or in the chain. */
  ghost predicate SlotsSettled(ss: seq<Slot>, order: seq<int>, r: int) {
    forall i :: 0 <= i < |ss| && i != r ==> i in order || ss[i].next == i
  }

  lemma UnlinkedSettled(ss: seq<Slot>, head: int, order: seq<int>, k: nat)
    requires Threaded(ss, head, order) && k < |order|
    requires SlotsSettled(ss, order, NIL)
    ensures SlotsSettled(Unlinked(ss, order, k), Dropped(order, k), order[k])
  {
    DroppedMembers(order, k);
  }

  lemma UnlinkedHeld(ss: seq<Slot>, head: int, order: seq<int>, k: nat)
    requires Threaded(ss, head, order) && k < |order| && FreeOrHeld(ss, order)
    ensures FreeOrHeld(Unlinked(ss, order, k), Dropped(order, k))
    ensures order[k] !in Dropped(order, k)
    ensures Unlinked(ss, order, k)[order[k]] == ss[order[k]].(next := NIL)
  {
    DroppedMembers(order, k);
    DroppedDistinct(order, k);
    UnlinkedAt(ss, head, order, k, k);
    forall i | 0 <= i < |ss| && i !in order
      ensures Unlinked(ss, order, k)[i] == ss[i]
    {
    }
  }

  lemma DroppedMembers(order: seq<int>, k: nat)
    requires k < |order|
    ensures forall s :: s in order && s != order[k] ==> s in Dropped(order, k)
  {
    forall s | s in order && s != order[k] ensures s in Dropped(order, k) {
      var j :| 0 <= j < |order| && order[j] == s;
      assert Dropped(order, k)[if j < k then j else j - 1] == s;
    }
  }

  lemma UnlinkedThreaded(ss: seq<Slot>, head: int, order: seq<int>, k: nat)
    requires Threaded(ss, head, order) && k < |order|
    ensures Threaded(Unlinked(ss, order, k), if k == 0 then At(order, 1) else head, Dropped(order, k))
  {
    var tt, rest := Unlinked(ss, order, k), Dropped(order, k);
    DroppedDistinct(order, k);
    forall j | 0 <= j < |rest| ensures tt[rest[j]].next == At(rest, j + 1) {
      UnlinkedLink(ss, head, order, k, j);
    }
  }

  lemma UnlinkedLink(ss: seq<Slot>, head: int, order: seq<int>, k: nat, j: nat)
    requires Threaded(ss, head, order) && k < |order| && j < |order| - 1
    ensures 0 <= Dropped(order, k)[j] < |ss|
    ensures Unlinked(ss, order, k)[Dropped(order, k)[j]].next == At(Dropped(order, k), j + 1)
  {
    UnlinkedAt(ss, head, order, k, if j < k then j else j + 1);
  }

  lemma UnlinkedChain(ss: seq<Slot>, head: int, order: seq<int>, k: nat)
    requires Threaded(ss, head, order) && k < |order|
    requires InRange(Dropped(order, k), |ss|)
    ensures SameRequests(ChainOf(Unlinked(ss, order, k), Dropped(order, k)), Unchain(ChainOf(ss, order), k))
  {
    var a, b := ChainOf(Unlinked(ss, order, k), Dropped(order, k)), Unchain(ChainOf(ss, order), k);
    forall j | 0 <= j < |a| ensures a[j].(next := 0) == b[j].(next := 0) {
      UnlinkedAt(ss, head, order, k, if j < k then j else j + 1);
      UnchainAt(ChainOf(ss, order), k, j);
    }
  }

  /** Unchaining a slot takes its request out of the queue and nothing else. */
  lemma UnlinkedDeadlines(ss: seq<Slot>, head: int, order: seq<int>, k: nat)
    requires Threaded(ss, head, order) && k < |order|
    requires InRange(Dropped(order, k), |ss|)
    ensures Deadlines(ChainOf(Unlinked(ss, order, k), Dropped(order, k)), 0)
         == Without(Deadlines(ChainOf(ss, order), 0), k)
    ensures Total(ChainOf(Unlinked(ss, order, k), Dropped(order, k))) <= Total(ChainOf(ss, order))
  {
    UnlinkedChain(ss, head, order, k);
    DeadlinesFrame(ChainOf(Unlinked(ss, order, k), Dropped(order, k)), Unchain(ChainOf(ss, order), k), 0);
    DeadlinesUnchain(ChainOf(ss, order), k, 0);
  }

  lemma PopFirstLinks(ss: seq<Slot>, head: int, order: seq<int>, tt: seq<Slot>)
    requires Threaded(ss, head, order) && order != [] && tt == ss[head := ss[head].(next := head)]
    ensures Threaded(tt, ss[head].next, order[1..]) && head !in order[1..]
    ensures ChainOf(tt, order[1..]) == ChainOf(ss, order)[1..]
  {
    assert Dropped(order, 0) == order[1..];
    DroppedDistinct(order, 0);
    assert order[1..] != [] ==> order[1..][0] == order[1];
    forall k | 0 <= k < |order| - 1 ensures tt[order[1..][k]] == ss[order[k + 1]] {
    }
  }

  /** Slots after the first `k` of a chain have been freed. */
  function Cleared(ss: seq<Slot>, order: seq<int>, k: nat): (tt: seq<Slot>)
    requires InRange(order, |ss|) && k <= |order|
    ensures |tt| == |ss|
  {
    if k == 0 then ss
    else
      var tt, r := Cleared(ss, order, k - 1), order[k - 1];
      tt[r := tt[r].(next := r)]
  }

  lemma {:induction false} ClearedAt(ss: seq<Slot>, order: seq<int>, k: nat, i: nat)
    requires InRange(order, |ss|) && k <= |order| && i < |ss|
    ensures Cleared(ss, order, k)[i] == if i in order[..k] then ss[i].(next := i) else ss[i]
  {
    if k > 0 {
      ClearedAt(ss, order, k - 1, i);
      assert order[..k] == order[..k - 1] + [order[k - 1]];
    }
  }

  lemma ClearedNone(ss: seq<Slot>, order: seq<int>)
    requires InRange(order, |ss|)
    ensures Cleared(ss, order, 0) == ss
  {
  }

  lemma ClearedMore(ss: seq<Slot>, order: seq<int>, k: nat)
    requires InRange(order, |ss|) && k < |order|
    ensures Cleared(ss, order, k + 1)
         == Cleared(ss, order, k)[order[k] := Cleared(ss, order, k)[order[k]].(next := order[k])]
  {
  }

  lemma NothingThreaded(ss: seq<Slot>)
    ensures Threaded(ss, NIL, []) && Total([]) == 0
  {
    assert Ranks([], map[]);
  }

  /** The next slot of the chain is still linked. */
  lemma ClearedLink(ss: seq<Slot>, head: int, order: seq<int>, k: nat)
    requires Threaded(ss, head, order) && k < |order|
    ensures Cleared(ss, order, k)[order[k]].next == At(order, k + 1)
  {
    var rank :| Ranks(order, rank);
    assert order[k] !in order[..k];
    ClearedAt(ss, order, k, order[k]);
  }

  lemma ClearedSettled(ss: seq<Slot>, order: seq<int>)
    requires InRange(order, |ss|) && FreeOrHeld(ss, order)
    ensures FreeOrHeld(Cleared(ss, order, |order|), [])
    ensures SlotsSettled(ss, order, NIL) ==> SlotsSettled(Cleared(ss, order, |order|), [], NIL)
  {
    assert order[..|order|] == order;
    forall i | 0 <= i < |ss| ensures Cleared(ss, order, |order|)[i].next == if i in order then i else ss[i].next {
      ClearedAt(ss, order, |order|, i);
    }
  }

  class RequestPool {
    const slots: array<Slot>
    var head: int
    ghost var order: seq<int>

    ghost predicate Valid()
      reads this, slots
    {
      && slots.Length == REQ_MAX
      && Threaded(slots[..], head, order)
      && FreeOrHeld(slots[..], order)
      && Total(ChainOf(slots[..], order)) <= REQ_TIMEOUT
    }

    /** The queue of requests and the seconds each has left. */
    ghost function Queue(): (q: seq<Pending>)
      requires Valid()
      reads this, slots
    {
      Remaining(0)
    }

    ghost predicate Free(i: int)
      reads slots
    {
      0 <= i < slots.Length && slots[i].next == i
    }

    ghost predicate Held(i: int)
      reads this, slots
    {
      0 <= i < slots.Length && i !in order && slots[i].next == NIL
    }

    /** Every slot but `r` is free or in the queue. Between events there is no exception. */
    ghost predicate SettledBut(r: int)
      reads this, slots
    {
      SlotsSettled(slots[..], order, r)
    }

    ghost predicate Settled()
      reads this, slots
    {
      SettledBut(NIL)
    }

    /** The queue, `base` seconds added to every deadline. */
    ghost function Remaining(base: nat): (q: seq<Pending>)
      requires Valid()
      reads this, slots
    {
      Deadlines(ChainOf(slots[..], order), base)
    }

    lemma QueueOrderly()
      requires Valid()
      ensures Orderly(Queue())
    {
      DeadlinesFacts(ChainOf(slots[..], order), 0);
    }

    /** Once every slot is free or queued, none is free exactly if all are queued. */
    lemma QueueBound()
      requires Valid()
      ensures |Queue()| <= REQ_MAX
      ensures Settled() ==> (Full() <==> |Queue()| == REQ_MAX)
    {
      QueueFacts();
      Slots(order, REQ_MAX);
      if Settled() {
        forall i | 0 <= i < REQ_MAX ensures Free(i) <==> i !in order {
          assert slots[..][i] == slots[i];
          if i in order {
            Linked(slots[..], head, order, i);
          }
        }
      }
    }

    lemma RemainingAged(t: nat)
      requires Valid()
      ensures Queue() == Aged(Remaining(t), t)
    {
      DeadlinesShift(ChainOf(slots[..], order), t, t);
    }

    lemma QueueFacts()
      requires Valid()
      ensures |Queue()| == |order|
      ensures forall k {:trigger Queue()[k]} :: 0 <= k < |order| ==>
        Queue()[k].pktId == slots[order[k]].pktId && Queue()[k].cb == slots[order[k]].cb
    {
      DeadlinesFacts(ChainOf(slots[..], order), 0);
    }

    /** All slots zeroed: none is queued, and none free before the first connection attempt. */
    constructor ()
      ensures Valid() && fresh(slots) && Queue() == []
    {
      slots := new Slot[REQ_MAX](_ => Slot(NIL, 0, None, 0));
      head, order := NIL, [];
      new;
      assert Ranks(order, map[]);
    }

    /** All slots free, as after the wipe that precedes a connection attempt. */
    method Init()
      requires Valid()
      modifies this, slots
      ensures Valid() && Settled() && Queue() == []
      ensures forall i :: 0 <= i < REQ_MAX ==> Free(i)
    {
      head := NIL;
      order := [];
      for n := 0 to slots.Length
        invariant head == NIL && order == []
        invariant forall i :: 0 <= i < n ==> slots[i].next == i
      {
        slots[n] := Slot(n, 0, None, 0);
      }
      assert Ranks(order, map[]);
    }

    ghost predicate Full()
      reads slots
    {
      forall i :: 0 <= i < REQ_MAX ==> !Free(i)
    }

    /** The first free slot, taken out of the free ones, or null when there is none. */
    method Create(pktId: u16, cb: Callback) returns (r: int)
      requires Valid()
      modifies slots
      ensures Valid() && Queue() == old(Queue())
      ensures r == NIL <==> old(Full())
      ensures r == NIL ==> slots[..] == old(slots[..])
      ensures r != NIL ==> Held(r) && old(Free(r)) && slots[r].pktId == pktId && slots[r].cb == cb
      ensures old(Settled()) ==> SettledBut(r)
    {
      r := NIL;
      for n := 0 to slots.Length
        invariant slots[..] == old(slots[..])
        invariant forall i :: 0 <= i < n ==> !Free(i)
      {
        if slots[n].next == n {
          assert old(Free(n));
          slots[n] := Slot(NIL, pktId, cb, slots[n].diff);
          assert slots[..] == old(slots[..])[n := slots[n]];
          assert ChainOf(slots[..], order) == ChainOf(old(slots[..]), order);
          return n;
        }
      }
    }

    /** The end of the queue and the seconds until its last request is due. */
    method FindLast() returns (last: int, timeBefore: nat)
      requires Valid()
      ensures last == (if order == [] then NIL else order[|order| - 1])
      ensures timeBefore == Total(ChainOf(slots[..], order))
    {
      last := NIL;
      timeBefore := 0;
      var iter := head;
      ghost var k: nat := 0;
      ghost var chain := ChainOf(slots[..], order);
      while iter != NIL
        invariant k <= |chain| && iter == At(order, k)
        invariant last == (if k == 0 then NIL else order[k - 1])
        invariant timeBefore == Total(chain[..k])
        decreases |chain| - k
      {
        assert chain[..k + 1] == chain[..k] + [chain[k]];
        DeadlinesAppend(chain[..k], chain[k], 0);
        timeBefore := timeBefore + slots[iter].diff;
        last := iter;
        iter := slots[iter].next;
        k := k + 1;
      }
      assert chain[..k] == chain;
    }

    /** Queues a held slot behind the others, due when the request timeout has passed. */
    method Append(r: int)
      requires Valid() && Held(r)
      modifies this, slots
      ensures Valid() && order == old(order) + [r]
      ensures Queue() == MqttDeadlines.Append(old(Queue()), old(slots[r].pktId), old(slots[r].cb))
      ensures old(SettledBut(r)) ==> Settled()
    {
      ghost var ss := slots[..];
      var last, timeBefore := FindLast();
      slots[r] := slots[r].(diff := REQ_TIMEOUT - timeBefore);
      ghost var s := slots[r];
      if last == NIL {
        head := r;
      } else {
        slots[last] := slots[last].(next := r);
      }
      assert slots[..] == LinkedLast(ss, order, r, s);
      LinkedLastThreaded(ss, old(head), order, r, s);
      LinkedLastDeadlines(ss, old(head), order, r, s);
      order := order + [r];
    }

    /** Gives a held slot back. */
    method Delete(r: int)
      requires Valid() && (r != NIL ==> Held(r))
      modifies slots
      ensures Valid() && Queue() == old(Queue())
      ensures r == NIL ==> slots[..] == old(slots[..])
      ensures r != NIL ==> Free(r)
      ensures old(SettledBut(r)) ==> Settled()
    {
      if r != NIL {
        slots[r] := slots[r].(next := r);
        assert slots[..] == old(slots[..])[r := old(slots[r]).(next := r)];
        assert ChainOf(slots[..], order) == ChainOf(old(slots[..]), order);
      }
    }

    method FindRequest(pktId: u16) returns (iter: int, prev: int)
      requires Valid()
      ensures var k := MqttDeadlines.Find(Queue(), pktId);
        iter == At(order, k) && prev == if k == 0 then NIL else order[k - 1]
    {
      iter, prev := head, NIL;
      ghost var k: nat := 0;
      QueueFacts();
      while iter != NIL
        invariant k <= |order| && iter == At(order, k)
        invariant prev == (if k == 0 then NIL else order[k - 1])
        invariant forall j :: 0 <= j < k ==> Queue()[j].pktId != pktId
        decreases |order| - k
      {
        if slots[iter].pktId == pktId {
          assert Queue()[k].pktId == pktId;
          break;
        }
        prev := iter;
        iter := slots[iter].next;
        k := k + 1;
      }
      assert MqttDeadlines.Find(Queue(), pktId) == k;
    }

    /** Takes slot `r`, the k-th of the queue and behind `prev`, out of the chain. */
    method Unlink(r: int, prev: int, ghost k: nat)
      requires Valid() && k < |order| && r == order[k] && prev == if k == 0 then NIL else order[k - 1]
      modifies this, slots
      ensures Valid() && order == Dropped(old(order), k) && Held(r)
      ensures Queue() == Without(old(Queue()), k)
      ensures slots[r].cb == old(slots[r].cb)
      ensures old(Settled()) ==> SettledBut(r)
    {
      ghost var ss := slots[..];
      if prev == NIL {
        head := slots[r].next;
      } else {
        slots[prev] := slots[prev].(next := slots[r].next);
      }
      var next := slots[r].next;
      if next != NIL {
        slots[next] := slots[next].(diff := slots[next].diff + slots[r].diff);
      }
      slots[r] := slots[r].(next := NIL);
      assert slots[..] == Unlinked(ss, order, k);
      UnlinkedThreaded(ss, old(head), order, k);
      UnlinkedDeadlines(ss, old(head), order, k);
      UnlinkedHeld(ss, old(head), order, k);
      if SlotsSettled(ss, order, NIL) {
        UnlinkedSettled(ss, old(head), order, k);
      }
      order := Dropped(order, k);
    }

    /** Unchains the oldest request with a packet identifier and hands out its slot. */
    method Take(pktId: u16) returns (r: int)
      requires Valid()
      modifies this, slots
      ensures Valid() && Queue() == MqttDeadlines.Take(old(Queue()), pktId)
      ensures r != NIL ==> Held(r)
      ensures var q, k := old(Queue()), MqttDeadlines.Find(old(Queue()), pktId);
        (r == NIL <==> k == |q|) && (r != NIL ==> slots[r].cb == q[k].cb)
      ensures old(Settled()) ==> SettledBut(r)
    {
      var prev;
      r, prev := FindRequest(pktId);
      if r != NIL {
        QueueFacts();
        Unlink(r, prev, MqttDeadlines.Find(Queue(), pktId));
      }
    }

    /** Unchains the first request and frees its slot. */
    method PopFirst(ghost base: nat) returns (cb: Callback)
      requires Valid() && order != []
      modifies this, slots
      ensures Valid() && |order| == |old(order)| - 1
      ensures Remaining(base + old(slots[head].diff)) == old(Remaining(base))[1..]
      ensures old(Remaining(base))[0] == Pending(old(slots[head].pktId), cb, base + old(slots[head].diff))
      ensures old(Settled()) ==> Settled()
    {
      ghost var ss := slots[..];
      var r := head;
      head := slots[r].next;
      cb := slots[r].cb;
      slots[r] := slots[r].(next := r);
      assert slots[..] == ss[r := slots[r]];
      PopFirstLinks(ss, r, order, slots[..]);
      assert order == [r] + order[1..];
      order := order[1..];
    }

    /** Takes `seconds` off the first difference. */
    method AgeFirst(seconds: nat, ghost base: nat)
      requires Valid() && order != [] && seconds <= slots[head].diff
      modifies slots
      ensures Valid()
      ensures Remaining(base + seconds) == old(Remaining(base))
      ensures old(Settled()) ==> Settled()
    {
      ghost var chain := ChainOf(slots[..], order);
      slots[head] := slots[head].(diff := slots[head].diff - seconds);
      assert slots[..] == old(slots[..])[head := slots[head]];
      ghost var aged := ChainOf(slots[..], order);
      assert aged[1..] == chain[1..];
    }

    /** Frees every request of the queue without calling back. */
    method Clear()
      requires Valid()
      modifies this, slots
      ensures Valid() && Queue() == []
      ensures old(Settled()) ==> Settled()
    {
      hide Total, SlotsSettled, FreeOrHeld, Distinct, Cleared;
      ghost var ss, k: nat := slots[..], 0;
      ClearedNone(ss, order);
      ClearedSettled(ss, order);
      var iter := head;
      while iter != NIL
        invariant k <= |order| && iter == At(order, k)
        invariant slots[..] == Cleared(ss, order, k)
        modifies slots
        decreases |order| - k
      {
        ClearedLink(ss, head, order, k);
        ClearedMore(ss, order, k);
        var next := slots[iter].next;
        slots[iter] := slots[iter].(next := iter);
        iter := next;
        k := k + 1;
      }
      head := NIL;
      order := [];
      NothingThreaded(slots[..]);
    }

    lemma RemainingFirst(base: nat)
      requires Valid() && order != []
      ensures Remaining(base) == [Remaining(base)[0]] + Remaining(base)[1..]
      ensures Remaining(base)[0].left == base + slots[head].diff
    {
    }

    /** The queue once the `left` of `t` seconds not yet accounted for have passed. */
    ghost function Later(left: nat, t: nat): seq<Pending>
      requires Valid() && left <= t
      reads this, slots
    {
      if left > 0 then Elapse(Remaining(t - left), t) else Aged(Remaining(t), t)
    }

    /** The callbacks still to come until then. */
    ghost function ToCall(left: nat, t: nat): seq<nat>
      requires Valid() && left <= t
      reads this, slots
    {
      if left > 0 then Timeouts(Remaining(t - left), t) else []
    }

    /** One round of that loop. */
    method ElapseFirst(left: nat, ghost t: nat) returns (left': nat, called: seq<nat>)
      requires Valid() && head != NIL && 0 < left <= t
      modifies this, slots
      ensures Valid() && left' <= left && (left' == 0 || |order| < |old(order)|)
      ensures old(Later(left, t)) == Later(left', t)
      ensures old(ToCall(left, t)) == called + ToCall(left', t)
      ensures old(Settled()) ==> Settled()
    {
      hide Total, SlotsSettled, FreeOrHeld, Distinct, Elapse, Timeouts, Aged, Deadlines, ChainOf;
      called := [];
      ghost var q := Remaining(t - left);
      RemainingFirst(t - left);
      ElapseCons(q[0], q[1..], t);
      if left >= slots[head].diff {
        left' := left - slots[head].diff;
        var cb := PopFirst(t - left);
        if cb.Some? {
          called := [cb.value];
        }
      } else {
        AgeFirst(left, t - left);
        left' := 0;
      }
    }

    /** `t` seconds pass: every request that is due is unchained, called back and freed. */
    method TimeElapsed(t: nat) returns (called: seq<nat>)
      requires Valid() && t < 256
      modifies this, slots
      ensures Valid() && Queue() == Elapse(old(Queue()), t)
      ensures called == Timeouts(old(Queue()), t)
      ensures old(Settled()) ==> Settled()
    {
      hide Total, SlotsSettled, FreeOrHeld, Distinct;
      ghost var later, toCall := Elapse(Queue(), t), Timeouts(Queue(), t);
      var left: nat := t;
      called := [];
      while left > 0 && head != NIL
        invariant Valid() && left <= t
        invariant later == Later(left, t) && toCall == called + ToCall(left, t)
        invariant old(Settled()) ==> Settled()
        decreases left, |order|
      {
        var more;
        left, more := ElapseFirst(left, t);
        Assoc(called, more, ToCall(left, t));
        called := called + more;
      }
      RemainingAged(t);
    }
  }
}
