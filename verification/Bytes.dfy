/** Bytes, big-endian 16-bit fields and positions in sequences, shared by the models. */
module Bytes {

  type byte = x: int | 0 <= x < 256 witness 0
  type u16 = x: int | 0 <= x < 0x1_0000 witness 0

  datatype Option<+T> = None | Some(value: T)

  /** The two bytes of a 16-bit field, most significant first. */
  function U16(v: u16): (bs: seq<byte>)
    ensures |bs| == 2
  {
    [v / 256, v % 256]
  }

  /** Reads a 16-bit field back. */
  function FromU16(hi: byte, lo: byte): u16
  {
    hi * 256 + lo
  }

  lemma Assoc<T>(a: seq<T>, b: seq<T>, c: seq<T>)
    ensures a + (b + c) == (a + b) + c
  {
  }

  /** The text `t` has `s` at position `i`. */
  predicate Reads<T(==)>(t: seq<T>, i: nat, s: seq<T>) {
    i + |s| <= |t| && t[i..i + |s|] == s
  }

  lemma ReadsSplit<T>(t: seq<T>, i: nat, a: seq<T>, b: seq<T>)
    requires Reads(t, i, a + b)
    ensures Reads(t, i, a) && Reads(t, i + |a|, b)
  {
    assert t[i..i + |a|] == (a + b)[..|a|] == a;
    assert t[i + |a|..i + |a| + |b|] == (a + b)[|a|..] == b;
  }

  lemma ReadsItem<T>(t: seq<T>, i: nat, s: seq<T>, k: nat)
    requires Reads(t, i, s) && k < |s|
    ensures i + |s| <= |t| && t[i + k] == s[k]
  {
    assert t[i..i + |s|][k] == s[k];
  }
}
