/** The SHA-256 compression function of FIPS 180-4, and the two ways it is computed: with a
    rotation of the registers every round, and unrolled eight times with the registers passed
    in a different order each time (platforms/BL616/utils_sha256.c, lines 66 to 230). */
module ShaCompress {
  import opened ShaBits

  type octet = bv8
  /** A 32-bit word; sums wrap around. */
  type word = x: int | 0 <= x < 0x1_0000_0000 witness 0

  function Add(x: word, y: word): word {
    (x + y) % 0x1_0000_0000
  }

  function ToWord(x: bv32): word {
    x as word
  }

  /** The eight working variables. */
  datatype Regs = Regs(a: word, b: word, c: word, d: word, e: word, f: word, g: word, h: word)

  /** Section 5.3.3 of FIPS 180-4. */
  const INITIAL := Regs(0x6A09E667, 0xBB67AE85, 0x3C6EF372, 0xA54FF53A, 0x510E527F, 0x9B05688C, 0x1F83D9AB, 0x5BE0CD19)

  /** Section 4.2.2 of FIPS 180-4. */
  const CONSTANTS: seq<seq<word>> := [
    [0x428A2F98, 0x71374491, 0xB5C0FBCF, 0xE9B5DBA5, 0x3956C25B, 0x59F111F1, 0x923F82A4, 0xAB1C5ED5],
    [0xD807AA98, 0x12835B01, 0x243185BE, 0x550C7DC3, 0x72BE5D74, 0x80DEB1FE, 0x9BDC06A7, 0xC19BF174],
    [0xE49B69C1, 0xEFBE4786, 0x0FC19DC6, 0x240CA1CC, 0x2DE92C6F, 0x4A7484AA, 0x5CB0A9DC, 0x76F988DA],
    [0x983E5152, 0xA831C66D, 0xB00327C8, 0xBF597FC7, 0xC6E00BF3, 0xD5A79147, 0x06CA6351, 0x14292967],
    [0x27B70A85, 0x2E1B2138, 0x4D2C6DFC, 0x53380D13, 0x650A7354, 0x766A0ABB, 0x81C2C92E, 0x92722C85],
    [0xA2BFE8A1, 0xA81A664B, 0xC24B8B70, 0xC76C51A3, 0xD192E819, 0xD6990624, 0xF40E3585, 0x106AA070],
    [0x19A4C116, 0x1E376C08, 0x2748774C, 0x34B0BCB5, 0x391C0CB3, 0x4ED8AA4A, 0x5B9CCA4F, 0x682E6FF3],
    [0x748F82EE, 0x78A5636F, 0x84C87814, 0x8CC70208, 0x90BEFFFA, 0xA4506CEB, 0xBEF9A3F7, 0xC67178F2]]

  function K(t: nat): word
    requires t < 64
  {
    CONSTANTS[t / 8][t % 8]
  }

  /** Section 4.1.2 of FIPS 180-4, with the rotations of section 3.2 written out. */
  function BigSigma0Bits(x: bv32): bv32 {
    ((x >> 2) | (x << 30)) ^ ((x >> 13) | (x << 19)) ^ ((x >> 22) | (x << 10))
  }

  function BigSigma1Bits(x: bv32): bv32 {
    ((x >> 6) | (x << 26)) ^ ((x >> 11) | (x << 21)) ^ ((x >> 25) | (x << 7))
  }

  function Sigma0Bits(x: bv32): bv32 {
    ((x >> 7) | (x << 25)) ^ ((x >> 18) | (x << 14)) ^ (x >> 3)
  }

  function Sigma1Bits(x: bv32): bv32 {
    ((x >> 17) | (x << 15)) ^ ((x >> 19) | (x << 13)) ^ (x >> 10)
  }

  /** Section 4.1.2 of FIPS 180-4. */
  function Ch(x: word, y: word, z: word): word {
    ToWord(ChBits(x as bv32, y as bv32, z as bv32))
  }

  function Maj(x: word, y: word, z: word): word {
    ToWord(MajBits(x as bv32, y as bv32, z as bv32))
  }

  function BigSigma0(x: word): word {
    ToWord(BigSigma0Bits(x as bv32))
  }

  function BigSigma1(x: word): word {
    ToWord(BigSigma1Bits(x as bv32))
  }

  function Sigma0(x: word): word {
    ToWord(Sigma0Bits(x as bv32))
  }

  function Sigma1(x: word): word {
    ToWord(Sigma1Bits(x as bv32))
  }

  function F0(x: word, y: word, z: word): word {
    ToWord(F0Bits(x as bv32, y as bv32, z as bv32))
  }

  function F1(x: word, y: word, z: word): word {
    ToWord(F1Bits(x as bv32, y as bv32, z as bv32))
  }

  lemma Majority(x: word, y: word, z: word)
    ensures F0(x, y, z) == Maj(x, y, z)
  {
    hide F0Bits, MajBits, ToWord;
    MajorityBits(x as bv32, y as bv32, z as bv32);
  }

  lemma Choice(x: word, y: word, z: word)
    ensures F1(x, y, z) == Ch(x, y, z)
  {
    hide F1Bits, ChBits, ToWord;
    ChoiceBits(x as bv32, y as bv32, z as bv32);
  }

  /** One round, step 3 of section 6.2.2 of FIPS 180-4. */
  function Round(r: Regs, k: word, w: word): Regs {
    var t1 := Add(Add(Add(Add(r.h, BigSigma1(r.e)), Ch(r.e, r.f, r.g)), k), w);
    var t2 := Add(BigSigma0(r.a), Maj(r.a, r.b, r.c));
    Regs(Add(t1, t2), r.a, r.b, r.c, Add(r.d, t1), r.e, r.f, r.g)
  }

  function Big(b0: octet, b1: octet, b2: octet, b3: octet): word {
    ToWord(((b0 as bv32) << 24) | ((b1 as bv32) << 16) | ((b2 as bv32) << 8) | (b3 as bv32))
  }

  /** Word `t` of the message schedule, step 1 of section 6.2.2. */
  function Schedule(block: seq<octet>, t: nat): word
    requires |block| == 64
  {
    if t < 16 then Big(block[4 * t], block[4 * t + 1], block[4 * t + 2], block[4 * t + 3])
    else
      Add(Add(Add(Sigma1(Schedule(block, t - 2)), Schedule(block, t - 7)), Sigma0(Schedule(block, t - 15))),
          Schedule(block, t - 16))
  }

  /** The working variables after `n` rounds. */
  function Rounds(r: Regs, block: seq<octet>, n: nat): Regs
    requires |block| == 64 && n <= 64
  {
    if n == 0 then r else Round(Rounds(r, block, n - 1), K(n - 1), Schedule(block, n - 1))
  }

  function Sum(x: Regs, y: Regs): Regs {
    Regs(Add(x.a, y.a), Add(x.b, y.b), Add(x.c, y.c), Add(x.d, y.d),
         Add(x.e, y.e), Add(x.f, y.f), Add(x.g, y.g), Add(x.h, y.h))
  }

  /** The intermediate hash value after a block, section 6.2.2 of FIPS 180-4. */
  function Compress(state: Regs, block: seq<octet>): Regs
    requires |block| == 64
  {
    Sum(state, Rounds(state, block, 64))
  }

  /** Eight words as working variables, the first of them at position -j. */
  function View(s: seq<word>, j: nat): Regs
    requires |s| == 8 && j <= 8
  {
    Regs(s[(8 - j) % 8], s[(9 - j) % 8], s[(10 - j) % 8], s[(11 - j) % 8],
         s[(12 - j) % 8], s[(13 - j) % 8], s[(14 - j) % 8], s[(15 - j) % 8])
  }

  /** What one use of the round macro does to eight words. */
  function Stepped(s: seq<word>, a: nat, b: nat, c: nat, d: nat, e: nat, f: nat, g: nat, h: nat, x: word, k: word): (r: seq<word>)
    requires |s| == 8 && a < 8 && b < 8 && c < 8 && d < 8 && e < 8 && f < 8 && g < 8 && h < 8
    ensures |r| == 8
  {
    var t1 := Add(Add(Add(Add(s[h], BigSigma1(s[e])), F1(s[e], s[f], s[g])), k), x);
    var t2 := Add(BigSigma0(s[a]), F0(s[a], s[b], s[c]));
    s[d := Add(s[d], t1)][h := Add(t1, t2)]
  }

  /** With the registers passed `j` places further, the macro is a round, and leaves them one
      more place further. */
  lemma SteppedRound(s: seq<word>, j: nat, x: word, k: word)
    requires |s| == 8 && j < 8
    ensures View(Stepped(s, (8 - j) % 8, (9 - j) % 8, (10 - j) % 8, (11 - j) % 8,
                         (12 - j) % 8, (13 - j) % 8, (14 - j) % 8, (15 - j) % 8, x, k), j + 1)
         == Round(View(s, j), k, x)
  {
    hide BigSigma0, BigSigma1, F0, F1, Ch, Maj, Add;
    var r := View(s, j);
    Majority(r.a, r.b, r.c);
    Choice(r.e, r.f, r.g);
  }

  /** The round macro. */
  method P(A: array<word>, a: nat, b: nat, c: nat, d: nat, e: nat, f: nat, g: nat, h: nat, x: word, k: word)
    requires A.Length == 8 && a < 8 && b < 8 && c < 8 && d < 8 && e < 8 && f < 8 && g < 8 && h < 8
    modifies A
    ensures A[..] == Stepped(old(A[..]), a, b, c, d, e, f, g, h, x, k)
  {
    hide BigSigma0, BigSigma1, F0, F1, Add;
    var temp1 := Add(Add(Add(Add(A[h], BigSigma1(A[e])), F1(A[e], A[f], A[g])), k), x);
    var temp2 := Add(BigSigma0(A[a]), F0(A[a], A[b], A[c]));
    A[d] := Add(A[d], temp1);
    A[h] := Add(temp1, temp2);
  }

  /** The first `n` words of the schedule are there. */
  ghost predicate Scheduled(w: seq<word>, block: seq<octet>, n: nat) {
    |w| == 64 && |block| == 64 && n <= 64 && forall t :: 0 <= t < n ==> w[t] == Schedule(block, t)
  }

  /** Computes the next word of the schedule in place. */
  method R(W: array<word>, t: nat, ghost block: seq<octet>) returns (w: word)
    requires 16 <= t < 64 && Scheduled(W[..], block, t)
    modifies W
    ensures Scheduled(W[..], block, t + 1) && w == Schedule(block, t)
  {
    hide Sigma0, Sigma1, Big, Add;
    assert W[t - 2] == W[..][t - 2] && W[t - 7] == W[..][t - 7] && W[t - 15] == W[..][t - 15] && W[t - 16] == W[..][t - 16];
    W[t] := Add(Add(Add(Sigma1(W[t - 2]), W[t - 7]), Sigma0(W[t - 15])), W[t - 16]);
    w := W[t];
    assert W[..] == old(W[..])[t := w];
  }

  method LoadWord(W: array<word>, t: nat, block: seq<octet>)
    requires t < 16 && Scheduled(W[..], block, t)
    modifies W
    ensures Scheduled(W[..], block, t + 1) && W[t] == Schedule(block, t)
  {
    hide Big;
    W[t] := Big(block[4 * t], block[4 * t + 1], block[4 * t + 2], block[4 * t + 3]);
    assert W[..] == old(W[..])[t := W[t]];
  }

  method AddInto(state: array<word>, A: array<word>)
    requires state.Length == 8 && A.Length == 8 && state != A
    modifies state
    ensures View(state[..], 0) == Sum(View(old(state[..]), 0), View(A[..], 0))
  {
    hide Add;
    for i := 0 to 8
      invariant forall k :: 0 <= k < i ==> state[k] == Add(old(state[k]), A[k])
      invariant forall k :: i <= k < 8 ==> state[k] == old(state[k])
    {
      state[i] := Add(state[i], A[i]);
    }
  }

  /** One block, with the registers moved along after every round. */
  method ProcessRolled(state: array<word>, data: seq<octet>)
    requires state.Length == 8 && |data| == 64
    modifies state
    ensures View(state[..], 0) == Compress(View(old(state[..]), 0), data)
  {
    hide K, Round, Schedule, Stepped, Sum;
    var A, W := new word[8](i requires 0 <= i < 8 reads state => state[i]), new word[64](_ => 0);
    ghost var s := View(state[..], 0);
    assert A[..] == state[..];
    for i := 0 to 64
      invariant Scheduled(W[..], data, i) && View(A[..], 0) == Rounds(s, data, i)
      invariant state[..] == old(state[..])
    {
      if i < 16 {
        LoadWord(W, i, data);
      } else {
        var w := R(W, i, data);
      }
      assert W[i] == W[..][i];
      SteppedRound(A[..], 0, W[i], K(i));
      P(A, 0, 1, 2, 3, 4, 5, 6, 7, W[i], K(i));
      Rotate(A);
    }
    AddInto(state, A);
  }

  /** Moves every register one place along. */
  method Rotate(A: array<word>)
    requires A.Length == 8
    modifies A
    ensures View(A[..], 0) == View(old(A[..]), 1)
  {
    var temp1 := A[7];
    A[7] := A[6];
    A[6] := A[5];
    A[5] := A[4];
    A[4] := A[3];
    A[3] := A[2];
    A[2] := A[1];
    A[1] := A[0];
    A[0] := temp1;
  }

  lemma RoundsNext(r: Regs, block: seq<octet>, n: nat)
    requires |block| == 64 && n < 64
    ensures Rounds(r, block, n + 1) == Round(Rounds(r, block, n), K(n), Schedule(block, n))
  {
  }

  /** Four rounds, the registers passed one place further each time. Words are taken from
      the schedule, or computed into it on the way (`load`). */
  method FirstRounds(A: array<word>, W: array<word>, i: nat, block: seq<octet>, load: bool, ghost s: Regs)
    requires A.Length == 8 && A != W && i + 8 <= (if load then 64 else 16) && (load ==> i >= 16)
    requires Scheduled(W[..], block, if load then i + 0 else 16) && View(A[..], 0) == Rounds(s, block, i + 0)
    modifies A, W
    ensures Scheduled(W[..], block, if load then i + 4 else 16) && View(A[..], 4) == Rounds(s, block, i + 4)
  {
    hide K, Round, Rounds, Schedule, Stepped, View, Scheduled;
    var w;
    w := Next(W, i, block, load);
    RoundsNext(s, block, i);
    SteppedRound(A[..], 0, w, K(i));
    P(A, 0, 1, 2, 3, 4, 5, 6, 7, w, K(i));
    w := Next(W, i + 1, block, load);
    RoundsNext(s, block, i + 1);
    SteppedRound(A[..], 1, w, K(i + 1));
    P(A, 7, 0, 1, 2, 3, 4, 5, 6, w, K(i + 1));
    w := Next(W, i + 2, block, load);
    RoundsNext(s, block, i + 2);
    SteppedRound(A[..], 2, w, K(i + 2));
    P(A, 6, 7, 0, 1, 2, 3, 4, 5, w, K(i + 2));
    w := Next(W, i + 3, block, load);
    RoundsNext(s, block, i + 3);
    SteppedRound(A[..], 3, w, K(i + 3));
    P(A, 5, 6, 7, 0, 1, 2, 3, 4, w, K(i + 3));
  }

  /** The next four. */
  method LastRounds(A: array<word>, W: array<word>, i: nat, block: seq<octet>, load: bool, ghost s: Regs)
    requires A.Length == 8 && A != W && i + 8 <= (if load then 64 else 16) && (load ==> i >= 16)
    requires Scheduled(W[..], block, if load then i + 4 else 16) && View(A[..], 4) == Rounds(s, block, i + 4)
    modifies A, W
    ensures Scheduled(W[..], block, if load then i + 8 else 16) && View(A[..], 8) == Rounds(s, block, i + 8)
  {
    hide K, Round, Rounds, Schedule, Stepped, View, Scheduled;
    var w;
    w := Next(W, i + 4, block, load);
    RoundsNext(s, block, i + 4);
    SteppedRound(A[..], 4, w, K(i + 4));
    P(A, 4, 5, 6, 7, 0, 1, 2, 3, w, K(i + 4));
    w := Next(W, i + 5, block, load);
    RoundsNext(s, block, i + 5);
    SteppedRound(A[..], 5, w, K(i + 5));
    P(A, 3, 4, 5, 6, 7, 0, 1, 2, w, K(i + 5));
    w := Next(W, i + 6, block, load);
    RoundsNext(s, block, i + 6);
    SteppedRound(A[..], 6, w, K(i + 6));
    P(A, 2, 3, 4, 5, 6, 7, 0, 1, w, K(i + 6));
    w := Next(W, i + 7, block, load);
    RoundsNext(s, block, i + 7);
    SteppedRound(A[..], 7, w, K(i + 7));
    P(A, 1, 2, 3, 4, 5, 6, 7, 0, w, K(i + 7));
  }

  /** Eight rounds, after which the registers are where they were. */
  method EightRounds(A: array<word>, W: array<word>, i: nat, block: seq<octet>, load: bool, ghost s: Regs)
    requires A.Length == 8 && A != W && i + 8 <= (if load then 64 else 16) && (load ==> i >= 16)
    requires Scheduled(W[..], block, if load then i else 16) && View(A[..], 0) == Rounds(s, block, i)
    modifies A, W
    ensures Scheduled(W[..], block, if load then i + 8 else 16) && View(A[..], 0) == Rounds(s, block, i + 8)
  {
    hide Round, Rounds, Schedule, View, Scheduled;
    FirstRounds(A, W, i, block, load, s);
    LastRounds(A, W, i, block, load, s);
    FullTurn(A[..]);
  }

  /** After eight places the registers are where they were. */
  lemma FullTurn(s: seq<word>)
    requires |s| == 8
    ensures View(s, 8) == View(s, 0)
  {
  }

  /** The word of round `t`: loaded before, or computed now. */
  method Next(W: array<word>, t: nat, ghost block: seq<octet>, load: bool) returns (w: word)
    requires t < 64 && if load then 16 <= t && Scheduled(W[..], block, t) else t < 16 && Scheduled(W[..], block, 16)
    modifies W
    ensures w == Schedule(block, t) && Scheduled(W[..], block, if load then t + 1 else 16)
  {
    if load {
      w := R(W, t, block);
    } else {
      assert W[t] == W[..][t];
      w := W[t];
    }
  }

  /** One block, unrolled. */
  method ProcessUnrolled(state: array<word>, data: seq<octet>)
    requires state.Length == 8 && |data| == 64
    modifies state
    ensures View(state[..], 0) == Compress(View(old(state[..]), 0), data)
  {
    hide Round, Rounds, Schedule, Stepped, Sum, View, Scheduled;
    var A, W := new word[8](i requires 0 <= i < 8 reads state => state[i]), new word[64](_ => 0);
    ghost var s := View(state[..], 0);
    assert A[..] == state[..];
    NothingScheduled(W[..], data);
    NoRounds(s, data);
    for i := 0 to 16
      invariant Scheduled(W[..], data, i) && A[..] == state[..] == old(state[..])
    {
      LoadWord(W, i, data);
    }
    var i := 0;
    while i < 16
      invariant i <= 16 && i % 8 == 0 && Scheduled(W[..], data, 16) && View(A[..], 0) == Rounds(s, data, i)
      invariant state[..] == old(state[..])
    {
      EightRounds(A, W, i, data, false, s);
      i := i + 8;
    }
    while i < 64
      invariant 16 <= i <= 64 && i % 8 == 0 && Scheduled(W[..], data, i) && View(A[..], 0) == Rounds(s, data, i)
      invariant state[..] == old(state[..])
    {
      EightRounds(A, W, i, data, true, s);
      i := i + 8;
    }
    AddInto(state, A);
  }

  lemma NothingScheduled(w: seq<word>, block: seq<octet>)
    requires |w| == 64 && |block| == 64
    ensures Scheduled(w, block, 0)
  {
  }

  lemma NoRounds(s: Regs, block: seq<octet>)
    requires |block| == 64
    ensures Rounds(s, block, 0) == s
  {
  }
}
