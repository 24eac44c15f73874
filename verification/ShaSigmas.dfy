/** The four sigma functions bit by bit (section 4.1.2 of FIPS 180-4): which bits of a word
    each bit of the result is the sum of. */
module ShaSigmas {
  import opened ShaCompress

  /** The i-th bit, counted from the least significant one. */
  predicate Bit(x: bv32, i: bv32)
    requires i < 32
  {
    (x >> i) & 1 == 1
  }

  lemma BitIs(x: bv32, i: bv32)
    requires i < 32
    ensures Bit(x, i) <==> (x >> i) & 1 == 1
  {
  }

  lemma BigSigma0Law(x: bv32, i: bv32)
    requires i < 32
    ensures ((((x >> 2) | (x << 30)) ^ ((x >> 13) | (x << 19)) ^ ((x >> 22) | (x << 10))) >> i) & 1 == 1
       <==> (((x >> ((i + 2) & 31)) & 1 == 1) != (((x >> ((i + 13) & 31)) & 1 == 1)
            != ((x >> ((i + 22) & 31)) & 1 == 1)))
  {
  }

  lemma BigSigma0Raw(x: bv32, i: bv32)
    requires i < 32
    ensures Bit(((x >> 2) | (x << 30)) ^ ((x >> 13) | (x << 19)) ^ ((x >> 22) | (x << 10)), i)
       <==> (Bit(x, (i + 2) & 31) != (Bit(x, (i + 13) & 31) != Bit(x, (i + 22) & 31)))
  {
    hide Bit;
    BigSigma0Law(x, i);
    BitIs(((x >> 2) | (x << 30)) ^ ((x >> 13) | (x << 19)) ^ ((x >> 22) | (x << 10)), i);
    BitIs(x, (i + 2) & 31);
    BitIs(x, (i + 13) & 31);
    BitIs(x, (i + 22) & 31);
  }

  lemma BigSigma0Is(x: bv32)
    ensures BigSigma0Bits(x) == ((x >> 2) | (x << 30)) ^ ((x >> 13) | (x << 19)) ^ ((x >> 22) | (x << 10))
  {
  }

  /** Bits 2, 13 and 22 places up, around the word. */
  lemma BigSigma0Bit(x: bv32, i: bv32)
    requires i < 32
    ensures Bit(BigSigma0Bits(x), i) <==> (Bit(x, (i + 2) & 31) != (Bit(x, (i + 13) & 31) != Bit(x, (i + 22) & 31)))
  {
    hide BigSigma0Bits, Bit;
    BigSigma0Is(x);
    BigSigma0Raw(x, i);
  }

  lemma BigSigma1Law(x: bv32, i: bv32)
    requires i < 32
    ensures ((((x >> 6) | (x << 26)) ^ ((x >> 11) | (x << 21)) ^ ((x >> 25) | (x << 7))) >> i) & 1 == 1
       <==> (((x >> ((i + 6) & 31)) & 1 == 1) != (((x >> ((i + 11) & 31)) & 1 == 1)
            != ((x >> ((i + 25) & 31)) & 1 == 1)))
  {
  }

  lemma BigSigma1Raw(x: bv32, i: bv32)
    requires i < 32
    ensures Bit(((x >> 6) | (x << 26)) ^ ((x >> 11) | (x << 21)) ^ ((x >> 25) | (x << 7)), i)
       <==> (Bit(x, (i + 6) & 31) != (Bit(x, (i + 11) & 31) != Bit(x, (i + 25) & 31)))
  {
    hide Bit;
    BigSigma1Law(x, i);
    BitIs(((x >> 6) | (x << 26)) ^ ((x >> 11) | (x << 21)) ^ ((x >> 25) | (x << 7)), i);
    BitIs(x, (i + 6) & 31);
    BitIs(x, (i + 11) & 31);
    BitIs(x, (i + 25) & 31);
  }

  lemma BigSigma1Is(x: bv32)
    ensures BigSigma1Bits(x) == ((x >> 6) | (x << 26)) ^ ((x >> 11) | (x << 21)) ^ ((x >> 25) | (x << 7))
  {
  }

  /** Bits 6, 11 and 25 places up. */
  lemma BigSigma1Bit(x: bv32, i: bv32)
    requires i < 32
    ensures Bit(BigSigma1Bits(x), i) <==> (Bit(x, (i + 6) & 31) != (Bit(x, (i + 11) & 31) != Bit(x, (i + 25) & 31)))
  {
    hide BigSigma1Bits, Bit;
    BigSigma1Is(x);
    BigSigma1Raw(x, i);
  }

  lemma Sigma0Law(x: bv32, i: bv32)
    requires i < 32
    ensures ((((x >> 7) | (x << 25)) ^ ((x >> 18) | (x << 14)) ^ (x >> 3)) >> i) & 1 == 1
       <==> (((x >> ((i + 7) & 31)) & 1 == 1) != (((x >> ((i + 18) & 31)) & 1 == 1)
            != (i < 29 && (x >> ((i + 3) & 31)) & 1 == 1)))
  {
  }

  lemma Sigma0Raw(x: bv32, i: bv32)
    requires i < 32
    ensures Bit(((x >> 7) | (x << 25)) ^ ((x >> 18) | (x << 14)) ^ (x >> 3), i)
       <==> (Bit(x, (i + 7) & 31) != (Bit(x, (i + 18) & 31) != (i < 29 && Bit(x, (i + 3) & 31))))
  {
    Sigma0Law(x, i);
  }

  lemma Sigma0Is(x: bv32)
    ensures Sigma0Bits(x) == ((x >> 7) | (x << 25)) ^ ((x >> 18) | (x << 14)) ^ (x >> 3)
  {
  }

  /** Bits 7 and 18 places up, around the word, and 3 places up within it. */
  lemma Sigma0Bit(x: bv32, i: bv32)
    requires i < 32
    ensures Bit(Sigma0Bits(x), i) <==> (Bit(x, (i + 7) & 31) != (Bit(x, (i + 18) & 31) != (i < 29 && Bit(x, (i + 3) & 31))))
  {
    hide Sigma0Bits, Bit;
    Sigma0Is(x);
    Sigma0Raw(x, i);
  }

  lemma Sigma1Law(x: bv32, i: bv32)
    requires i < 32
    ensures ((((x >> 17) | (x << 15)) ^ ((x >> 19) | (x << 13)) ^ (x >> 10)) >> i) & 1 == 1
       <==> (((x >> ((i + 17) & 31)) & 1 == 1) != (((x >> ((i + 19) & 31)) & 1 == 1)
            != (i < 22 && (x >> ((i + 10) & 31)) & 1 == 1)))
  {
  }

  lemma Sigma1Raw(x: bv32, i: bv32)
    requires i < 32
    ensures Bit(((x >> 17) | (x << 15)) ^ ((x >> 19) | (x << 13)) ^ (x >> 10), i)
       <==> (Bit(x, (i + 17) & 31) != (Bit(x, (i + 19) & 31) != (i < 22 && Bit(x, (i + 10) & 31))))
  {
    Sigma1Law(x, i);
  }

  lemma Sigma1Is(x: bv32)
    ensures Sigma1Bits(x) == ((x >> 17) | (x << 15)) ^ ((x >> 19) | (x << 13)) ^ (x >> 10)
  {
  }

  /** Bits 17 and 19 places up, around the word, and 10 places up within it. */
  lemma Sigma1Bit(x: bv32, i: bv32)
    requires i < 32
    ensures Bit(Sigma1Bits(x), i) <==> (Bit(x, (i + 17) & 31) != (Bit(x, (i + 19) & 31) != (i < 22 && Bit(x, (i + 10) & 31))))
  {
    hide Sigma1Bits, Bit;
    Sigma1Is(x);
    Sigma1Raw(x, i);
  }
}
