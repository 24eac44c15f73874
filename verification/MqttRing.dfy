/** The output ring buffer of the MQTT client and the bytes TCP takes from it
    (libraries/mqtt_patched.c, lines 184 to 275 and 455 to 533). */
module MqttRing {
  import opened Bytes

  const RING_SIZE := 2048

  /** Ring contents after one more byte. The get and put positions coincide both in an
      empty ring and in one that has just been filled, so the byte that fills the ring
      makes it read as empty. */
  function PutByte(c: seq<byte>, item: byte): (r: seq<byte>)
    requires |c| < RING_SIZE
    ensures |r| < RING_SIZE
  {
    if |c| + 1 < RING_SIZE then c + [item] else []
  }

  /** Ring contents after a run of bytes, put one at a time. */
  function PutAll(c: seq<byte>, bs: seq<byte>): (r: seq<byte>)
    requires |c| < RING_SIZE
    ensures |r| < RING_SIZE
    decreases |bs|
  {
    if bs == [] then c else PutAll(PutByte(c, bs[0]), bs[1..])
  }

  lemma {:induction false} PutAllConcat(c: seq<byte>, a: seq<byte>, b: seq<byte>)
    requires |c| < RING_SIZE
    ensures PutAll(c, a + b) == PutAll(PutAll(c, a), b)
    decreases |a|
  {
    if a == [] {
      assert a + b == b;
    } else {
      assert (a + b)[1..] == a[1..] + b;
      PutAllConcat(PutByte(c, a[0]), a[1..], b);
    }
  }

  lemma PutAll4(c: seq<byte>, x: seq<byte>, y: seq<byte>, z: seq<byte>, w: seq<byte>)
    requires |c| < RING_SIZE
    ensures PutAll(PutAll(PutAll(PutAll(c, x), y), z), w) == PutAll(c, x + (y + z + w))
  {
    PutAllConcat(c, x, y + z + w);
    PutAllConcat(PutAll(c, x), y + z, w);
    PutAllConcat(PutAll(c, x), y, z);
  }

  lemma {:induction false} PutAllFits(c: seq<byte>, bs: seq<byte>)
    requires |c| + |bs| < RING_SIZE
    ensures PutAll(c, bs) == c + bs
    decreases |bs|
  {
    if bs == [] {
    } else {
      PutAllFits(c + [bs[0]], bs[1..]);
      assert c + [bs[0]] + bs[1..] == c + bs;
    }
  }

  /** The ring keeps everything put into it exactly when one byte stays free. */
  lemma PutAllKeepsIff(c: seq<byte>, bs: seq<byte>)
    requires |c| < RING_SIZE
    ensures PutAll(c, bs) == c + bs <==> |c| + |bs| < RING_SIZE
  {
    if |c| + |bs| < RING_SIZE {
      PutAllFits(c, bs);
    }
  }

  /** A message that fills the ring exactly takes everything queued before it along. */
  lemma PutAllFillsEmpties(c: seq<byte>, bs: seq<byte>)
    requires |c| < RING_SIZE && |c| + |bs| == RING_SIZE
    ensures PutAll(c, bs) == []
  {
    var n := |bs| - 1;
    assert bs == bs[..n] + [bs[n]];
    PutAllConcat(c, bs[..n], [bs[n]]);
    PutAllFits(c, bs[..n]);
  }

  /** The ring never holds more than was put, and less once it has been filled. */
  lemma {:induction false} PutAllLength(c: seq<byte>, bs: seq<byte>)
    requires |c| < RING_SIZE
    ensures |PutAll(c, bs)| <= |c| + |bs|
    ensures |c| + |bs| >= RING_SIZE ==> |PutAll(c, bs)| < |c| + |bs|
    decreases |bs|
  {
    if bs != [] {
      PutAllLength(PutByte(c, bs[0]), bs[1..]);
    }
  }

  /** How many bytes it holds: each time it is filled the count starts again. */
  lemma {:induction false} PutAllHeld(c: seq<byte>, bs: seq<byte>)
    requires |c| < RING_SIZE
    ensures |PutAll(c, bs)| == (|c| + |bs|) % RING_SIZE
    decreases |bs|
  {
    if bs != [] {
      PutAllHeld(PutByte(c, bs[0]), bs[1..]);
      Around(|bs| - 1);
    }
  }

  lemma Around(n: nat)
    ensures (RING_SIZE + n) % RING_SIZE == n % RING_SIZE
  {
  }

  class RingBuffer {
    const buf: array<byte>
    var put: nat
    var get: nat

    ghost predicate Valid()
      reads this
    {
      buf.Length == RING_SIZE && put < RING_SIZE && get < RING_SIZE
    }

    ghost function Contents(): (c: seq<byte>)
      requires Valid()
      reads this, buf
      ensures |c| < RING_SIZE
    {
      if get <= put then buf[get..put] else buf[get..] + buf[..put]
    }

    constructor ()
      ensures Valid() && fresh(buf) && Contents() == []
    {
      buf := new byte[RING_SIZE](_ => 0);
      put, get := 0, 0;
    }

    /** Empty again, as after the wipe that precedes a connection attempt. */
    method Reset()
      requires Valid()
      modifies this`put, this`get
      ensures Valid() && Contents() == []
    {
      put, get := 0, 0;
    }

    method Put(item: byte)
      requires Valid()
      modifies this`put, buf
      ensures Valid() && Contents() == PutByte(old(Contents()), item)
    {
      ghost var c := Contents();
      buf[put] := item;
      put := put + 1;
      if put >= RING_SIZE {
        put := 0;
      }
      if |c| + 1 < RING_SIZE {
        assert Contents() == c + [item];
      }
    }

    method AdvanceGet(len: nat)
      requires Valid() && len <= |Contents()|
      modifies this`get
      ensures Valid() && Contents() == old(Contents())[len..]
      ensures get == if old(get) + len < RING_SIZE then old(get) + len else old(get) + len - RING_SIZE
    {
      ghost var c := Contents();
      get := get + len;
      if get >= RING_SIZE {
        get := get - RING_SIZE;
      }
      assert Contents() == c[len..];
    }

    /** The source subtracts in 32 bits, corrects a borrow and narrows to 16 bits. */
    method Len() returns (len: u16)
      requires Valid()
      ensures len == |Contents()|
    {
      var d := (put - get) % 0x1_0000_0000;
      if d > 0xFFFF {
        d := (d + RING_SIZE) % 0x1_0000_0000;
      }
      len := d % 0x1_0000;
    }

    method LinearReadLength() returns (len: nat)
      requires Valid()
      ensures len == if |Contents()| <= RING_SIZE - get then |Contents()| else RING_SIZE - get
      ensures len <= |Contents()| && get + len <= RING_SIZE
      ensures len < |Contents()| ==> get + len == RING_SIZE
    {
      var n := Len();
      len := if n <= RING_SIZE - get then n else RING_SIZE - get;
    }

    /** One TCP write of `len` bytes read without wrapping, and the index update that
        follows a successful one. */
    method Write(len: nat, ok: bool) returns (sent: seq<byte>)
      requires Valid() && len <= |Contents()| && get + len <= RING_SIZE
      modifies this`get
      ensures Valid() && sent + Contents() == old(Contents())
      ensures sent == if ok then old(Contents())[..len] else []
      ensures ok && old(get) + len < RING_SIZE ==> get == old(get) + len
      ensures ok && old(get) + len == RING_SIZE ==> get == 0
    {
      hide Contents;
      sent := [];
      ghost var c := Contents();
      if ok {
        sent := buf[get..get + len];
        Front(len);
        AdvanceGet(len);
        assert c == c[..len] + c[len..];
      }
    }

    lemma Front(len: nat)
      requires Valid() && len <= |Contents()| && get + len <= RING_SIZE
      ensures buf[get..get + len] == Contents()[..len]
    {
    }

    /** The second write, after the first one has reached the end of the array. */
    method SendAfterWrap(sndbuf: u16, ok: bool) returns (sent: seq<byte>)
      requires Valid()
      modifies this`get
      ensures Valid() && sent + Contents() == old(Contents())
      ensures ok && |old(Contents())| <= sndbuf && old(get) == 0 ==> sent == old(Contents())
    {
      var linLen := LinearReadLength();
      var sendLen: nat := if sndbuf <= linLen then sndbuf else linLen;
      sent := Write(sendLen, ok);
    }

    /** Offers the queued bytes to TCP. The connection's free send space (before the first
        and before the second write) and the success of each write are up to TCP;
        `taken` is what its writes accepted. */
    method OutputSend(sndbuf: u16, ok: bool, sndbuf2: u16, ok2: bool) returns (taken: seq<byte>)
      requires Valid()
      modifies this`get
      ensures Valid() && taken + Contents() == old(Contents())
      ensures ok && ok2 && |old(Contents())| <= sndbuf && |old(Contents())| <= sndbuf2
              ==> taken == old(Contents())
    {
      taken := [];
      var linLen := LinearReadLength();
      if sndbuf == 0 || linLen == 0 {
        return;
      }
      var sendLen: nat := sndbuf;
      var wrap := false;
      if sendLen > linLen {
        sendLen := linLen;
        var n := Len();
        wrap := n > linLen;
      }
      taken := Write(sendLen, ok);
      if ok && wrap {
        var more := SendAfterWrap(sndbuf2, ok2);
        taken := taken + more;
      }
    }
  }
}
