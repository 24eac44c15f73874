/** Base64 bit by bit (section 4 of RFC 4648): the characters of an encoding are six bits each of
    its input (src/base64/base64.c, lines 18 to 53). */
module Base64Bits {
  import opened Bytes
  import opened Base64

  function Halved(b: nat, k: nat): nat {
    if k == 0 then b else Halved(b, k - 1) / 2
  }

  /** The j-th bit of the bytes, the most significant of each first; zeros behind them. */
  function Bit(x: seq<byte>, j: nat): (b: nat)
    ensures b <= 1
  {
    if j / 8 < |x| then Halved(x[j / 8], 7 - j % 8) % 2 else 0
  }

  /** Six bits from the j-th on. */
  function Six(x: seq<byte>, j: nat): (d: nat)
    ensures d < 64
  {
    32 * Bit(x, j) + 16 * Bit(x, j + 1) + 8 * Bit(x, j + 2) + 4 * Bit(x, j + 3) + 2 * Bit(x, j + 4) + Bit(x, j + 5)
  }

  lemma BitLater(x: seq<byte>, j: nat)
    requires |x| >= 3
    ensures Bit(x[3..], j) == Bit(x, 24 + j)
  {
    assert (24 + j) / 8 == 3 + j / 8 && (24 + j) % 8 == j % 8;
  }

  lemma SixLater(x: seq<byte>, j: nat)
    requires |x| >= 3
    ensures Six(x[3..], j) == Six(x, 24 + j)
  {
    hide Bit;
    BitLater(x, j);
    BitLater(x, j + 1);
    BitLater(x, j + 2);
    BitLater(x, j + 3);
    BitLater(x, j + 4);
    BitLater(x, j + 5);
  }

  /** A byte and its parts, from its bits. */
  lemma ByteBits(b: byte, k: nat)
    requires k <= 7
    ensures Halved(b, k) == 2 * Halved(b, k + 1) + Halved(b, k) % 2
    ensures Halved(b, 0) == b && Halved(b, 2) == b / 4 && Halved(b, 4) == b / 16 && Halved(b, 6) == b / 64
    ensures Halved(b, 8) == 0
  {
    assert Halved(b, k + 1) == Halved(b, k) / 2;
    assert Halved(b, 1) == b / 2;
    assert Halved(b, 2) == b / 2 / 2 == b / 4;
    assert Halved(b, 3) == b / 4 / 2;
    assert Halved(b, 4) == b / 4 / 2 / 2 == b / 16;
    assert Halved(b, 5) == b / 16 / 2;
    assert Halved(b, 6) == b / 16 / 2 / 2 == b / 64;
    assert Halved(b, 7) == b / 64 / 2;
    assert Halved(b, 8) == b / 64 / 2 / 2 == 0;
  }

  /** The digits of three bytes. */
  lemma DigitsOf(a: byte, b: byte, c: byte)
    ensures var v := Word(a, b, c);
      && DigitOf(v, 0) == a / 4 && DigitOf(v, 1) == a % 4 * 16 + b / 16
      && DigitOf(v, 2) == b % 16 * 4 + c / 64 && DigitOf(v, 3) == c % 64
  {
    var d0, d1, d2, d3 := a / 4, a % 4 * 16 + b / 16, b % 16 * 4 + c / 64, c % 64;
    var v := Word(a, b, c);
    assert v == ((d0 * 64 + d1) * 64 + d2) * 64 + d3;
    Digit(d0 * 64 + d1, d2);
    Digit((d0 * 64 + d1) * 64 + d2, d3);
    Digit(d0, d1);
    assert v / 4096 == v / 64 / 64 && v / 262144 == v / 64 / 64 / 64;
  }

  lemma Digit(q: nat, r: nat)
    requires r < 64
    ensures (q * 64 + r) / 64 == q && (q * 64 + r) % 64 == r
  {
  }

  /** Eight bits of one byte. */
  lemma BitAt(x: seq<byte>, i: nat, k: nat)
    requires k < 8
    ensures Bit(x, 8 * i + k) == Halved(if i < |x| then x[i] else 0, 7 - k) % 2
  {
    hide Halved;
    assert (8 * i + k) / 8 == i && (8 * i + k) % 8 == k;
    if i >= |x| {
      NoBits(7 - k);
    }
  }

  lemma NoBits(k: nat)
    ensures Halved(0, k) == 0
  {
  }

  /** A byte cut in two, from its bits. */
  lemma Cuts(x: seq<byte>, i: nat)
    ensures var b, j := if i < |x| then x[i] else 0, 8 * i;
      && 32 * Bit(x, j) + 16 * Bit(x, j + 1) + 8 * Bit(x, j + 2) + 4 * Bit(x, j + 3) + 2 * Bit(x, j + 4) + Bit(x, j + 5) == b / 4
      && 2 * Bit(x, j + 6) + Bit(x, j + 7) == b % 4
      && 8 * Bit(x, j) + 4 * Bit(x, j + 1) + 2 * Bit(x, j + 2) + Bit(x, j + 3) == b / 16
      && 8 * Bit(x, j + 4) + 4 * Bit(x, j + 5) + 2 * Bit(x, j + 6) + Bit(x, j + 7) == b % 16
      && 2 * Bit(x, j) + Bit(x, j + 1) == b / 64
      && 32 * Bit(x, j + 2) + 16 * Bit(x, j + 3) + 8 * Bit(x, j + 4) + 4 * Bit(x, j + 5) + 2 * Bit(x, j + 6) + Bit(x, j + 7)
         == b % 64
  {
    hide Bit, Halved;
    var b: byte := if i < |x| then x[i] else 0;
    BitAt(x, i, 0);
    BitAt(x, i, 1);
    BitAt(x, i, 2);
    BitAt(x, i, 3);
    BitAt(x, i, 4);
    BitAt(x, i, 5);
    BitAt(x, i, 6);
    BitAt(x, i, 7);
    Sums(b);
    Whole(b);
  }

  lemma Whole(b: byte)
    ensures b % 4 == b - 4 * (b / 4) && b % 16 == b - 16 * (b / 16) && b % 64 == b - 64 * (b / 64)
  {
  }

  /** Sums of the bits of a byte, by the number of times it has been halved. */
  lemma Sums(b: byte)
    ensures var t0, t1, t2, t3 := Halved(b, 0) % 2, Halved(b, 1) % 2, Halved(b, 2) % 2, Halved(b, 3) % 2;
      var t4, t5, t6, t7 := Halved(b, 4) % 2, Halved(b, 5) % 2, Halved(b, 6) % 2, Halved(b, 7) % 2;
      && 2 * t7 + t6 == b / 64 && 8 * t7 + 4 * t6 + 2 * t5 + t4 == b / 16
      && 32 * t7 + 16 * t6 + 8 * t5 + 4 * t4 + 2 * t3 + t2 == b / 4
      && 128 * t7 + 64 * t6 + 32 * t5 + 16 * t4 + 8 * t3 + 4 * t2 + 2 * t1 + t0 == b
  {
    hide Halved;
    ByteBits(b, 0);
    ByteBits(b, 1);
    ByteBits(b, 2);
    ByteBits(b, 3);
    ByteBits(b, 4);
    ByteBits(b, 5);
    ByteBits(b, 6);
    ByteBits(b, 7);
  }

  /** What six bits in a row are, from one byte or two. */
  lemma Sixes(x: seq<byte>)
    ensures var a, b, c := if |x| > 0 then x[0] else 0, if |x| > 1 then x[1] else 0, if |x| > 2 then x[2] else 0;
      && Six(x, 0) == a / 4 && Six(x, 6) == a % 4 * 16 + b / 16
      && Six(x, 12) == b % 16 * 4 + c / 64 && Six(x, 18) == c % 64
  {
    hide Bit, Halved;
    Cuts(x, 0);
    Cuts(x, 1);
    Cuts(x, 2);
  }

  /** The four digits of a group are its 24 bits, with zeros for the bytes that are missing. */
  lemma GroupBits(x: seq<byte>)
    requires 1 <= |x|
    ensures var a, b, c := x[0], if |x| > 1 then x[1] else 0, if |x| > 2 then x[2] else 0;
      var v := Word(a, b, c);
      && DigitOf(v, 0) == Six(x, 0) && DigitOf(v, 1) == Six(x, 6)
      && DigitOf(v, 2) == Six(x, 12) && DigitOf(v, 3) == Six(x, 18)
  {
    hide Six, Word, DigitOf;
    DigitsOf(x[0], if |x| > 1 then x[1] else 0, if |x| > 2 then x[2] else 0);
    Sixes(x);
  }

  /** Every character of an encoding: the letter for its six bits, or padding where these lie
      behind the input. */
  lemma {:induction false} EncodedBits(x: seq<byte>, k: nat)
    requires k < |Encode(x)|
    ensures Encode(x)[k] == if 6 * k < 8 * |x| then ALPHABET[Six(x, 6 * k)] else '='
    decreases |x|
  {
    hide Six, Group, Word, DigitOf, ALPHABET;
    if k < 4 {
      FirstFour(x, k);
    } else {
      EncodedBits(x[3..], k - 4);
      SixLater(x, 6 * (k - 4));
    }
  }

  lemma FirstFour(x: seq<byte>, k: nat)
    requires k < 4 && k < |Encode(x)|
    ensures Encode(x)[k] == if 6 * k < 8 * |x| then ALPHABET[Six(x, 6 * k)] else '='
  {
    hide Six, Word, DigitOf, Char, ALPHABET;
    GroupBits(x);
    GroupPrefix(x);
    var v := Word(x[0], if |x| > 1 then x[1] else 0, if |x| > 2 then x[2] else 0);
    CharFromTable(DigitOf(v, k));
    assert Encode(x)[k] == Group(x)[k];
  }

  /** The first group looks at no more than three bytes. */
  lemma GroupPrefix(x: seq<byte>)
    requires x != []
    ensures |Encode(x)| >= 4 && Encode(x)[..4] == Group(x)
  {
    hide Char, DigitOf, Word;
    if |x| > 3 {
      assert x[..3][0] == x[0] && x[..3][1] == x[1] && x[..3][2] == x[2];
    }
  }
}
