/** Building MQTT packets in the output ring: the fixed header with its variable-length
    remaining-length field (sections 2.2 and 2.3 of MQTT 3.1.1), strings, and the space
    check that precedes every message (libraries/mqtt_patched.c, lines 455 to 533). */
module MqttMessages {
  import opened Bytes
  import opened MqttRing

  /** Control packet types, section 2.2.1 of MQTT 3.1.1. */
  const CONNECT := 1
  const CONNACK := 2
  const PUBLISH := 3
  const PUBACK := 4
  const PUBREC := 5
  const PUBREL := 6
  const PUBCOMP := 7
  const SUBSCRIBE := 8
  const SUBACK := 9
  const UNSUBSCRIBE := 10
  const UNSUBACK := 11
  const PINGREQ := 12
  const PINGRESP := 13

  /** First byte of a packet: type, DUP, QoS and RETAIN. */
  function ControlByte(msgType: nat, dup: nat, qos: nat, retain: nat): byte {
    (msgType % 16) * 16 + (dup % 2) * 8 + (qos % 4) * 2 + retain % 2
  }

  function PacketType(b: byte): nat {
    b / 16
  }

  function PacketQos(b: byte): nat {
    (b / 2) % 4
  }

  /** Remaining-length field: seven bits a byte, least significant group first, the top bit
      set on every byte but the last. */
  function VarLen(n: nat): (bs: seq<byte>)
    ensures |bs| >= 1
  {
    if n < 128 then [n] else [n % 128 + 128] + VarLen(n / 128)
  }

  /** The number a remaining-length field stands for. */
  function VarLenValue(bs: seq<byte>): nat {
    if bs == [] then 0 else bs[0] % 128 + 128 * VarLenValue(bs[1..])
  }

  lemma {:induction false} VarLenRoundTrip(n: nat)
    ensures VarLenValue(VarLen(n)) == n
    ensures VarLen(n)[|VarLen(n)| - 1] < 128
    ensures forall i :: 0 <= i < |VarLen(n)| - 1 ==> VarLen(n)[i] >= 128
  {
    if n >= 128 {
      VarLenRoundTrip(n / 128);
      assert VarLen(n)[1..] == VarLen(n / 128);
    }
  }

  /** Field sizes of section 2.2.3 of MQTT 3.1.1. */
  lemma VarLenSize(n: nat)
    ensures n < 128 ==> |VarLen(n)| == 1
    ensures 128 <= n < 16384 ==> |VarLen(n)| == 2
    ensures 16384 <= n < 2097152 ==> |VarLen(n)| == 3
    ensures 2097152 <= n < 268435456 ==> |VarLen(n)| == 4
  {
    if 128 <= n < 268435456 {
      assert |VarLen(n)| == 1 + |VarLen(n / 128)|;
      if n / 128 >= 128 {
        assert |VarLen(n / 128)| == 1 + |VarLen(n / 128 / 128)|;
        if n / 128 / 128 >= 128 {
          assert |VarLen(n / 128 / 128)| == 1 + |VarLen(n / 128 / 128 / 128)|;
        }
      }
    }
  }

  function FixedHeader(msgType: nat, dup: nat, qos: nat, retain: nat, rLength: nat): (bs: seq<byte>)
    ensures |bs| >= 2
  {
    [ControlByte(msgType, dup, qos, retain)] + VarLen(rLength)
  }

  /** A length-prefixed string, section 1.5.3 of MQTT 3.1.1. */
  function Str(s: seq<byte>): seq<byte>
    requires |s| < 0x1_0000
  {
    U16(|s|) + s
  }

  /** Bytes of a whole message whose part after the fixed header is `rLength` bytes. */
  function MessageSize(rLength: u16): nat {
    1 + |VarLen(rLength)| + rLength
  }

  /** The space check as the source computes it: the total is kept in 16 bits. */
  predicate Admits(c: seq<byte>, rLength: u16)
    requires |c| < RING_SIZE
  {
    AdmitsAt(|c|, rLength)
  }

  /** The check depends only on how many bytes are in the ring. */
  predicate AdmitsAt(held: nat, rLength: u16) {
    MessageSize(rLength) % 0x1_0000 <= RING_SIZE - held
  }

  /** The 16-bit total is right, and the check exact, up to a remaining length of 65531;
      from 65532 on it wraps and, unless fewer bytes are free than the wrapped total says,
      admits a message that cannot fit. */
  lemma AdmitsExactIff(c: seq<byte>, rLength: u16)
    requires |c| < RING_SIZE
    ensures (Admits(c, rLength) <==> MessageSize(rLength) <= RING_SIZE - |c|)
            <==> (rLength <= 65531 || RING_SIZE - |c| < rLength - 65532)
  {
    VarLenSize(rLength);
  }

  lemma AdmitsWrapExample()
    ensures Admits([], 65532) && MessageSize(65532) == 65536 > RING_SIZE
  {
    VarLenSize(65532);
  }

  /** An admitted message is queued behind the earlier ones exactly when it leaves a byte
      free; the check alone does not ensure that. */
  lemma AdmittedKeptIff(c: seq<byte>, rLength: u16, msg: seq<byte>)
    requires |c| < RING_SIZE && rLength <= 65531
    requires |msg| == MessageSize(rLength) && Admits(c, rLength)
    ensures PutAll(c, msg) == c + msg <==> MessageSize(rLength) < RING_SIZE - |c|
    ensures MessageSize(rLength) == RING_SIZE - |c| ==> PutAll(c, msg) == []
  {
    AdmitsExactIff(c, rLength);
    PutAllKeepsIff(c, msg);
    if MessageSize(rLength) == RING_SIZE - |c| {
      PutAllFillsEmpties(c, msg);
    }
  }

  method AppendU8(rb: RingBuffer, value: byte)
    requires rb.Valid()
    modifies rb`put, rb.buf
    ensures rb.Valid() && rb.Contents() == PutAll(old(rb.Contents()), [value])
  {
    rb.Put(value);
  }

  method AppendU16(rb: RingBuffer, value: u16)
    requires rb.Valid()
    modifies rb`put, rb.buf
    ensures rb.Valid() && rb.Contents() == PutAll(old(rb.Contents()), U16(value))
  {
    ghost var c := rb.Contents();
    rb.Put(value / 256);
    rb.Put(value % 256);
    PutAllConcat(c, [value / 256], [value % 256]);
    assert U16(value) == [value / 256] + [value % 256];
  }

  method AppendBuf(rb: RingBuffer, data: seq<byte>, length: u16)
    requires rb.Valid() && length <= |data|
    modifies rb`put, rb.buf
    ensures rb.Valid() && rb.Contents() == PutAll(old(rb.Contents()), data[..length])
  {
    ghost var c := rb.Contents();
    for n := 0 to length
      invariant rb.Valid()
      invariant rb.Contents() == PutAll(c, data[..n])
    {
      rb.Put(data[n]);
      assert data[..n + 1] == data[..n] + [data[n]];
      PutAllConcat(c, data[..n], [data[n]]);
    }
  }

  method AppendString(rb: RingBuffer, str: seq<byte>, length: u16)
    requires rb.Valid() && length == |str|
    modifies rb`put, rb.buf
    ensures rb.Valid() && rb.Contents() == PutAll(old(rb.Contents()), Str(str))
  {
    ghost var c := rb.Contents();
    AppendU16(rb, length);
    AppendBuf(rb, str, length);
    assert str[..length] == str;
    PutAllConcat(c, U16(length), str);
  }

  /** One remaining-length byte of `r`. */
  function LengthByte(r: nat): byte {
    r % 128 + (if r >= 128 then 128 else 0)
  }

  function LengthTail(r: nat): seq<byte> {
    if r > 0 then VarLen(r) else []
  }

  lemma VarLenParts(r: nat)
    ensures VarLen(r)[0] == LengthByte(r) && VarLen(r)[1..] == LengthTail(r / 128)
  {
  }

  lemma PutLengthByte(c: seq<byte>, r: nat)
    requires |c| < RING_SIZE
    ensures PutAll(c, VarLen(r)) == PutAll(PutByte(c, LengthByte(r)), LengthTail(r / 128))
  {
    var v := VarLen(r);
    VarLenParts(r);
    assert PutAll(c, v) == PutAll(PutByte(c, v[0]), v[1..]);
  }

  /** The do-while loop that writes the remaining-length field. */
  method AppendRemainingLength(rb: RingBuffer, rLength: u16)
    requires rb.Valid()
    modifies rb`put, rb.buf
    ensures rb.Valid() && rb.Contents() == PutAll(old(rb.Contents()), VarLen(rLength))
  {
    ghost var all := PutAll(rb.Contents(), VarLen(rLength));
    PutLengthByte(rb.Contents(), rLength);
    rb.Put(LengthByte(rLength));
    var r: nat := rLength / 128;
    while r > 0
      invariant rb.Valid()
      invariant PutAll(rb.Contents(), LengthTail(r)) == all
      decreases r
    {
      PutLengthByte(rb.Contents(), r);
      rb.Put(LengthByte(r));
      r := r / 128;
    }
  }

  method AppendFixedHeader(rb: RingBuffer, msgType: nat, dup: nat, qos: nat, retain: nat, rLength: u16)
    requires rb.Valid()
    modifies rb`put, rb.buf
    ensures rb.Valid()
    ensures rb.Contents() == PutAll(old(rb.Contents()), FixedHeader(msgType, dup, qos, retain, rLength))
  {
    ghost var c := rb.Contents();
    AppendU8(rb, ControlByte(msgType, dup, qos, retain));
    AppendRemainingLength(rb, rLength);
    PutAllConcat(c, [ControlByte(msgType, dup, qos, retain)], VarLen(rLength));
  }

  method CheckSpace(rb: RingBuffer, rLength: u16) returns (fits: bool)
    requires rb.Valid()
    ensures fits <==> Admits(rb.Contents(), rLength)
  {
    var totalLen: u16 := (1 + rLength) % 0x1_0000;
    ghost var exact: nat := 1 + rLength;
    totalLen, exact := Count(totalLen, exact);
    var r: nat := rLength / 128;
    VarLenParts(rLength);
    while r > 0
      invariant totalLen == exact % 0x1_0000
      invariant exact + |LengthTail(r)| == MessageSize(rLength)
      decreases r
    {
      VarLenParts(r);
      totalLen, exact := Count(totalLen, exact);
      r := r / 128;
    }
    var len := rb.Len();
    fits := totalLen <= RING_SIZE - len;
  }

  /** The 16-bit increment of the total, beside the unbounded count it stands for. */
  method Count(total: u16, ghost exact: nat) returns (total': u16, ghost exact': nat)
    requires total == exact % 0x1_0000
    ensures exact' == exact + 1 && total' == exact' % 0x1_0000
  {
    total' := (total + 1) % 0x1_0000;
    exact' := exact + 1;
  }
}
