/** Hashing a message that arrives in chunks (platforms/BL616/utils_sha256.c, lines 56 to 75
    and 231 to 305; sections 5.1.1 and 6.2 of FIPS 180-4). */
module ShaStream {
  import opened ShaCompress

  /** The hash value after the whole blocks of a message. */
  function Fold(h: Regs, m: seq<octet>): Regs
    decreases |m|
  {
    if |m| < 64 then h else Fold(Compress(h, m[..64]), m[64..])
  }

  lemma {:induction false} FoldConcat(h: Regs, a: seq<octet>, b: seq<octet>)
    requires |a| % 64 == 0
    ensures Fold(h, a + b) == Fold(Fold(h, a), b)
    decreases |a|
  {
    hide Compress;
    if a == [] {
      assert a + b == b;
    } else {
      assert (a + b)[..64] == a[..64] && (a + b)[64..] == a[64..] + b;
      FoldConcat(Compress(h, a[..64]), a[64..], b);
    }
  }

  /** One more block. */
  lemma FoldBlock(h: Regs, a: seq<octet>, block: seq<octet>)
    requires |a| % 64 == 0 && |block| == 64
    ensures Fold(h, a + block) == Compress(Fold(h, a), block)
  {
    hide Compress;
    FoldConcat(h, a, block);
    assert block[..64] == block && block[64..] == [];
  }

  /** How many bytes of a message lie in whole blocks. */
  function Whole(n: nat): (k: nat)
    ensures k <= n && k % 64 == 0 && n - k < 64 && n - k == n % 64
  {
    n - n % 64
  }

  const TWO32 := 0x1_0000_0000
  const TWO64 := 0x1_0000_0000_0000_0000

  function ByteOf(n: nat, shift: nat): octet
    requires shift > 0
  {
    (n / shift % 256) as octet
  }

  /** A 32-bit word, most significant byte first. */
  function Bytes32(n: nat): (bs: seq<octet>)
    ensures |bs| == 4
  {
    [ByteOf(n, 0x100_0000), ByteOf(n, 0x1_0000), ByteOf(n, 0x100), ByteOf(n, 1)]
  }

  /** A 64-bit number, most significant byte first. */
  function Bytes64(n: nat): (bs: seq<octet>)
    ensures |bs| == 8
  {
    Bytes32(n / TWO32 % TWO32) + Bytes32(n % TWO32)
  }

  /** The number of zero bytes between the one bit and the length. */
  function ZeroBytes(n: nat): nat {
    (119 - n % 64) % 64
  }

  /** Section 5.1.1 of FIPS 180-4 asks for the smallest such number. */
  lemma ZeroBytesLeast(n: nat, k: nat)
    ensures (n + 1 + ZeroBytes(n)) % 64 == 56
    ensures (n + 1 + k) % 64 == 56 ==> ZeroBytes(n) <= k
  {
    var r, z := n % 64, ZeroBytes(n);
    assert z == if r <= 55 then 55 - r else 119 - r;
    Mod64(n / 64, r + 1 + z);
    if k < z {
      Mod64(n / 64, r + 1 + k);
    }
  }

  lemma Mod64(q: nat, r: nat)
    ensures (64 * q + r) % 64 == r % 64
  {
  }

  function Zeros(n: nat): (z: seq<octet>)
    ensures |z| == n
  {
    seq(n, i => 0)
  }

  /** The padding of a message: a one bit, zeros, and its length in bits. */
  function Padding(n: nat): seq<octet> {
    [0x80] + Zeros(ZeroBytes(n)) + Bytes64(8 * n % TWO64)
  }

  function DigestBytes(r: Regs): seq<octet> {
    Bytes32(r.a) + Bytes32(r.b) + Bytes32(r.c) + Bytes32(r.d) + Bytes32(r.e) + Bytes32(r.f) + Bytes32(r.g) + Bytes32(r.h)
  }

  /** The digest of a message, section 6.2 of FIPS 180-4. */
  function Sha256(m: seq<octet>): seq<octet> {
    DigestBytes(Fold(INITIAL, m + Padding(|m|)))
  }

  class Context {
    var total0: word
    var total1: word
    const state: array<word>
    const buffer: array<octet>
    /** Everything hashed so far. */
    ghost var message: seq<octet>

    ghost predicate Shape() {
      state.Length == 8 && buffer.Length == 64
    }

    /** The state is the fold over the whole blocks, the buffer holds the rest. */
    ghost predicate Folded(m: seq<octet>, done: nat)
      requires Shape() && done <= |m|
      reads state
    {
      done % 64 == 0 && View(state[..], 0) == Fold(INITIAL, m[..done])
    }

    ghost predicate Valid()
      reads this, state, buffer
    {
      && Shape()
      && total1 * TWO32 + total0 == |message| % TWO64
      && Folded(message, Whole(|message|))
      && buffer[..|message| % 64] == message[Whole(|message|)..]
    }

    constructor ()
      ensures Valid() && fresh(state) && fresh(buffer) && message == []
    {
      state := new word[8](_ => 0);
      buffer := new octet[64](_ => 0);
      total0, total1, message := 0, 0, [];
      new;
      Starts();
    }

    method Starts()
      requires Shape()
      modifies this, state
      ensures Valid() && message == []
    {
      total0, total1, message := 0, 0, [];
      state[0], state[1], state[2], state[3] := INITIAL.a, INITIAL.b, INITIAL.c, INITIAL.d;
      state[4], state[5], state[6], state[7] := INITIAL.e, INITIAL.f, INITIAL.g, INITIAL.h;
    }

    /** Hashes one block, by either of the two variants. */
    method Process(data: seq<octet>, small: bool, ghost m: seq<octet>, ghost done: nat)
      requires Shape() && |data| == 64 && done + 64 <= |m| && Folded(m, done) && data == m[done..done + 64]
      modifies state
      ensures Folded(m, done + 64)
    {
      hide Compress, View, Fold;
      FoldBlock(INITIAL, m[..done], data);
      assert m[..done + 64] == m[..done] + data;
      if small {
        ProcessRolled(state, data);
      } else {
        ProcessUnrolled(state, data);
      }
    }

    /** Copies bytes into the buffer. */
    method Store(left: nat, input: seq<octet>)
      requires Shape() && left + |input| <= 64
      modifies buffer
      ensures buffer[..left + |input|] == old(buffer[..left]) + input
    {
      for i := 0 to |input|
        invariant buffer[..left + i] == old(buffer[..left]) + input[..i]
      {
        buffer[left + i] := input[i];
        assert buffer[..left + i + 1] == buffer[..left + i] + [input[i]];
        assert input[..i + 1] == input[..i] + [input[i]];
      }
      assert input[..|input|] == input;
    }

    /** Counts bytes, carrying from the low into the high word. */
    method Count(ilen: word, ghost n: nat)
      requires total1 * TWO32 + total0 == n % TWO64
      modifies this`total0, this`total1
      ensures total1 * TWO32 + total0 == (n + ilen) % TWO64
    {
      Carried(total0, total1, ilen, n);
      total0 := (total0 + ilen) % TWO32;
      if total0 < ilen {
        total1 := (total1 + 1) % TWO32;
      }
    }

    /** The bytes of the message from `done` on: some are in the buffer, the rest is to come. */
    ghost predicate Pending(m: seq<octet>, done: nat, left: nat, input: seq<octet>)
      requires Shape()
      reads state, buffer
    {
      && done <= |m| && left < 64 && Folded(m, done)
      && m[done..] == buffer[..left] + input
    }

    method Update(input0: seq<octet>, small: bool)
      requires Valid() && |input0| < TWO32
      modifies this, state, buffer
      ensures Valid() && message == old(message) + input0
    {
      hide Folded;
      if |input0| == 0 {
        assert message + input0 == message;
        return;
      }
      ghost var m, done := message + input0, Whole(|message|);
      var left: nat := total0 % 64;
      LowBits(total0, total1, |message|);
      Extended(message, input0);
      Count(|input0|, |message|);
      message := m;
      var input := input0;
      if left > 0 && |input| >= 64 - left {
        done := FillBlock(left, input, small, m, done);
        input := input[64 - left..];
        left := 0;
      }
      done := WholeBlocks(left, input, small, m, done);
    }

    /** More input does not change what is folded. */
    lemma Extended(m: seq<octet>, input: seq<octet>)
      requires Shape() && Folded(m, Whole(|m|)) && buffer[..|m| % 64] == m[Whole(|m|)..]
      ensures Pending(m + input, Whole(|m|), |m| % 64, input)
    {
      var done := Whole(|m|);
      assert (m + input)[..done] == m[..done];
      assert (m + input)[done..] == m[done..] + input;
    }

    /** Completes the block in the buffer and hashes it. */
    method FillBlock(left: nat, input: seq<octet>, small: bool, ghost m: seq<octet>, ghost done: nat)
      returns (ghost done': nat)
      requires Shape() && Pending(m, done, left, input) && left + |input| >= 64
      modifies state, buffer
      ensures done' == done + 64 && Pending(m, done', 0, input[64 - left..])
    {
      hide Folded;
      var fill := 64 - left;
      ghost var before := buffer[..left];
      Store(left, input[..fill]);
      assert buffer[..64] == buffer[..] == before + input[..fill];
      assert m[done..] == (before + input[..fill]) + input[fill..];
      CutBlock(m, done, buffer[..], input[fill..]);
      Process(buffer[..], small, m, done);
      done' := done + 64;
      assert buffer[..0] + input[fill..] == input[fill..];
    }

    /** Hashes the whole blocks of the input and keeps the rest. */
    method WholeBlocks(left: nat, input0: seq<octet>, small: bool, ghost m: seq<octet>, ghost done0: nat)
      returns (ghost done: nat)
      requires Shape() && Pending(m, done0, left, input0) && (left > 0 ==> left + |input0| < 64)
      modifies state, buffer
      ensures Folded(m, Whole(|m|)) && buffer[..|m| % 64] == m[Whole(|m|)..]
    {
      hide Folded;
      var input := input0;
      done := done0;
      while |input| >= 64
        invariant Pending(m, done, left, input) && (left > 0 ==> left + |input| < 64)
        decreases |input|
      {
        assert buffer[..0] + input == input[..64] + input[64..];
        CutBlock(m, done, input[..64], input[64..]);
        Process(input[..64], small, m, done);
        input := input[64..];
        done := done + 64;
        assert buffer[..0] + input == input;
      }
      KeepRest(left, input, m, done);
    }

    method KeepRest(left: nat, input: seq<octet>, ghost m: seq<octet>, ghost done: nat)
      requires Shape() && Pending(m, done, left, input) && left + |input| < 64
      modifies buffer
      ensures Folded(m, Whole(|m|)) && buffer[..|m| % 64] == m[Whole(|m|)..]
    {
      assert done % 64 == 0;
      hide Folded;
      EndOfBlocks(|m|, done, left + |input|);
      if |input| > 0 {
        Store(left, input);
      } else {
        assert buffer[..left] + input == buffer[..left];
      }
    }

    method Finish(small: bool) returns (output: seq<octet>)
      requires Valid()
      modifies this, state, buffer
      ensures output == Sha256(old(message))
    {
      hide Fold, View, DigestBytes, Bytes32, Padding;
      ghost var m, n := message, |message|;
      var high: nat := total0 / 0x2000_0000 + total1 * 8 % TWO32;
      var low: nat := total0 * 8 % TWO32;
      var msglen := Bytes32(high) + Bytes32(low);
      LengthField(total0, total1, n);
      LowBits(total0, total1, n);
      var last: nat := total0 % 64;
      var padn: nat := if last < 56 then 56 - last else 120 - last;
      var padding := [0x80] + Zeros(63);
      PaddingCut(n, padn);
      PaddingParts(n);
      Pad(padding[..padn], msglen, small);
      output := DigestBytes(View(state[..], 0));
    }

    /** Hashes the padding, which ends on a block boundary. */
    method Pad(padding: seq<octet>, msglen: seq<octet>, small: bool)
      requires Valid() && |padding| <= 64 && |msglen| == 8
      requires (|message| + |padding| + 8) % 64 == 0
      modifies this, state, buffer
      ensures View(state[..], 0) == Fold(INITIAL, old(message) + (padding + msglen))
    {
      hide Valid, View, Fold;
      ghost var m := message;
      Update(padding, small);
      Update(msglen, small);
      assert message == m + (padding + msglen);
      AtBoundary();
    }

    lemma AtBoundary()
      requires Valid() && |message| % 64 == 0
      ensures View(state[..], 0) == Fold(INITIAL, message)
    {
      hide View, Fold;
      assert message[..|message|] == message;
    }
  }

  /** A 32-bit sum that is less than one of its terms has carried. */
  lemma Carried(low: word, high: word, ilen: word, n: nat)
    requires high * TWO32 + low == n % TWO64
    ensures var sum := (low + ilen) % TWO32;
      (if sum < ilen then (high + 1) % TWO32 else high) * TWO32 + sum == (n + ilen) % TWO64
  {
    var t := n % TWO64 + ilen;
    assert (n + ilen) % TWO64 == t % TWO64 by {
      SkipWhole(n / TWO64, t);
    }
    if low + ilen < TWO32 {
      assert (low + ilen) % TWO32 == low + ilen;
      assert t < TWO64;
    } else {
      assert (low + ilen) % TWO32 == low + ilen - TWO32;
      if high + 1 < TWO32 {
        assert t < TWO64;
      } else {
        assert t % TWO64 == t - TWO64;
      }
    }
  }

  lemma PaddingParts(n: nat)
    ensures Padding(n) == [0x80] + Zeros(ZeroBytes(n)) + Bytes64(8 * n % TWO64)
    ensures (n + 1 + ZeroBytes(n) + 8) % 64 == 0
  {
    hide Bytes64, Zeros, ZeroBytes;
    ZeroBytesLeast(n, 0);
    EightMore(n + 1 + ZeroBytes(n));
  }

  lemma EightMore(k: nat)
    requires k % 64 == 56
    ensures (k + 8) % 64 == 0
  {
  }

  lemma LowBits(total0: word, total1: word, n: nat)
    requires total1 * TWO32 + total0 == n % TWO64
    ensures total0 % 64 == n % 64
  {
    var t := n % TWO64;
    assert n == 64 * (n / TWO64 * 0x400_0000_0000_0000) + t;
    Mod64(n / TWO64 * 0x400_0000_0000_0000, t);
    Mod64(total1 * 0x400_0000, total0);
  }

  /** The next block of a message whose rest begins with it. */
  lemma CutBlock(m: seq<octet>, done: nat, block: seq<octet>, rest: seq<octet>)
    requires done <= |m| && |block| == 64 && m[done..] == block + rest
    ensures done + 64 <= |m| && m[done..done + 64] == block && m[done + 64..] == rest
  {
    assert m[done..done + 64] == m[done..][..64];
    assert m[done + 64..] == m[done..][64..];
  }

  lemma EndOfBlocks(n: nat, done: nat, left: nat)
    requires done % 64 == 0 && done + left == n && left < 64
    ensures Whole(n) == done && n % 64 == left
  {
  }

  /** The two halves of the length field, from the two halves of the byte count. */
  lemma LengthField(total0: word, total1: word, n: nat)
    requires total1 * TWO32 + total0 == n % TWO64
    ensures var high := total0 / 0x2000_0000 + total1 * 8 % TWO32;
      high < TWO32 && Bytes32(high) + Bytes32(total0 * 8 % TWO32) == Bytes64(8 * n % TWO64)
  {
    hide Bytes32;
    var a, b := total0 / 0x2000_0000, total0 % 0x2000_0000;
    var x := 8 * total1 + a;
    TimesEight(n, total1 * TWO32 + total0);
    assert 8 * (total1 * TWO32 + total0) == x * TWO32 + 8 * b;
    SplitMod(x, 8 * b);
    SplitWord(x % TWO32, 8 * b);
    SplitWord(a, 8 * b);
    EightsCarry(total1, a);
  }

  lemma TimesEight(n: nat, t: nat)
    requires t == n % TWO64
    ensures 8 * n % TWO64 == 8 * t % TWO64
  {
    assert 8 * n == 8 * (n / TWO64) * TWO64 + 8 * t;
    SkipWhole(8 * (n / TWO64), 8 * t);
  }

  lemma SkipWhole(q: nat, r: nat)
    ensures (q * TWO64 + r) % TWO64 == r % TWO64
  {
  }

  lemma SplitMod(x: nat, y: nat)
    requires y < TWO32
    ensures (x * TWO32 + y) % TWO64 == x % TWO32 * TWO32 + y
  {
    var q, r := x / TWO32, x % TWO32;
    assert x * TWO32 + y == q * TWO64 + (r * TWO32 + y);
    SkipWhole(q, r * TWO32 + y);
  }

  lemma SplitWord(hi: nat, lo: nat)
    requires lo < TWO32
    ensures (hi * TWO32 + lo) / TWO32 == hi && (hi * TWO32 + lo) % TWO32 == lo
  {
  }

  /** Eight times a word leaves room for three more bits. */
  lemma EightsCarry(total1: word, a: nat)
    requires a < 8
    ensures (8 * total1 + a) % TWO32 == total1 * 8 % TWO32 + a < TWO32
  {
    assert 8 * total1 % TWO32 == 8 * (total1 % 0x2000_0000);
  }

  lemma PaddingCut(n: nat, padn: nat)
    requires padn == if n % 64 < 56 then 56 - n % 64 else 120 - n % 64
    ensures padn <= 64 && ([0x80 as octet] + Zeros(63))[..padn] == [0x80] + Zeros(ZeroBytes(n))
  {
  }

  function Concat(chunks: seq<seq<octet>>): seq<octet> {
    if chunks == [] then [] else chunks[0] + Concat(chunks[1..])
  }

  /** However a message is cut into chunks, and whichever variant hashes each of them, the
      digest is that of the whole message. */
  method HashChunks(chunks: seq<seq<octet>>, small: seq<bool>) returns (digest: seq<octet>)
    requires |small| == |chunks| + 1 && forall i :: 0 <= i < |chunks| ==> |chunks[i]| < TWO32
    ensures digest == Sha256(Concat(chunks))
  {
    hide Sha256, Context.Valid;
    var ctx := new Context();
    assert chunks[0..] == chunks && [] + Concat(chunks) == Concat(chunks);
    for i := 0 to |chunks|
      invariant ctx.Valid() && ctx.message + Concat(chunks[i..]) == Concat(chunks)
      invariant fresh(ctx) && fresh(ctx.state) && fresh(ctx.buffer)
    {
      assert chunks[i..][1..] == chunks[i + 1..];
      assert (ctx.message + chunks[i]) + Concat(chunks[i + 1..]) == ctx.message + (chunks[i] + Concat(chunks[i + 1..]));
      ctx.Update(chunks[i], small[i]);
    }
    assert ctx.message + [] == ctx.message;
    digest := ctx.Finish(small[|chunks|]);
  }
}
