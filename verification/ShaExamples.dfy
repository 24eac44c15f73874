/** Values that FIPS 180-4 fixes, by example: the first round of its message "abc" (appendix B.1
    of FIPS 180-2), a word of a schedule, and the order of bytes. */
module ShaExamples {
  import opened ShaBits
  import opened ShaCompress
  import opened ShaStream

  lemma SigmasOfInitial()
    ensures BigSigma0(0x6A09E667) == 0xCE20B47E && BigSigma1(0x510E527F) == 0x3587272B
  {
    assert BigSigma0Bits(0x6A09E667) == 0xCE20B47E;
    assert BigSigma1Bits(0x510E527F) == 0x3587272B;
  }

  lemma ChoiceOfInitial()
    ensures Ch(0x510E527F, 0x9B05688C, 0x1F83D9AB) == 0x1F85C98C
  {
    assert ChBits(0x510E527F, 0x9B05688C, 0x1F83D9AB) == 0x1F85C98C;
  }

  lemma MajorityOfInitial()
    ensures Maj(0x6A09E667, 0xBB67AE85, 0x3C6EF372) == 0x3A6FE667
  {
    assert MajBits(0x6A09E667, 0xBB67AE85, 0x3C6EF372) == 0x3A6FE667;
  }

  /** The first round. */
  lemma FirstRound()
    ensures Round(INITIAL, K(0), 0x61626380)
         == Regs(0x5D6AEBCD, 0x6A09E667, 0xBB67AE85, 0x3C6EF372, 0xFA2A4622, 0x510E527F, 0x9B05688C, 0x1F83D9AB)
  {
    hide BigSigma0, BigSigma1, Ch, Maj, K, Add;
    SigmasOfInitial();
    ChoiceOfInitial();
    MajorityOfInitial();
    FirstConstant();
    FirstSums();
  }

  lemma FirstConstant()
    ensures K(0) == 0x428A2F98
  {
  }

  lemma FirstSums()
    ensures Add(Add(Add(Add(0x5BE0CD19, 0x3587272B), 0x1F85C98C), 0x428A2F98), 0x61626380) == 0x54DA50E8
    ensures Add(0xCE20B47E, 0x3A6FE667) == 0x08909AE5
    ensures Add(0x54DA50E8, 0x08909AE5) == 0x5D6AEBCD && Add(0xA54FF53A, 0x54DA50E8) == 0xFA2A4622
  {
  }

  lemma BigWords()
    ensures Big(0, 1, 2, 3) == 0x00010203 && Big(4, 5, 6, 7) == 0x04050607
    ensures Big(36, 37, 38, 39) == 0x24252627 && Big(56, 57, 58, 59) == 0x38393A3B
  {
  }

  lemma SigmasOfWords()
    ensures Sigma0(0x04050607) == 0x4F096BCD && Sigma1(0x38393A3B) == 0xBA54F555
  {
    assert Sigma0Bits(0x04050607) == 0x4F096BCD;
    assert Sigma1Bits(0x38393A3B) == 0xBA54F555;
  }

  /** Word 16 of a schedule is made of words 14, 9, 1 and 0, each with its first byte on top. */
  lemma SixteenthWord(block: seq<octet>)
    requires |block| == 64
    requires block[0] == 0 && block[1] == 1 && block[2] == 2 && block[3] == 3
    requires block[4] == 4 && block[5] == 5 && block[6] == 6 && block[7] == 7
    requires block[36] == 36 && block[37] == 37 && block[38] == 38 && block[39] == 39
    requires block[56] == 56 && block[57] == 57 && block[58] == 58 && block[59] == 59
    ensures Schedule(block, 16) == 0x2D84894C
  {
    hide Big, Sigma0, Sigma1, Schedule;
    BigWords();
    SigmasOfWords();
    EarlyWord(block, 0);
    EarlyWord(block, 1);
    EarlyWord(block, 9);
    EarlyWord(block, 14);
    LateWord(block);
  }

  lemma EarlyWord(block: seq<octet>, t: nat)
    requires |block| == 64 && t < 16
    ensures Schedule(block, t) == Big(block[4 * t], block[4 * t + 1], block[4 * t + 2], block[4 * t + 3])
  {
    hide Big;
  }

  lemma LateWord(block: seq<octet>)
    requires |block| == 64
    ensures Schedule(block, 16)
         == Add(Add(Add(Sigma1(Schedule(block, 14)), Schedule(block, 9)), Sigma0(Schedule(block, 1))), Schedule(block, 0))
  {
    hide Big, Sigma0, Sigma1, Add;
  }

  /** Words are written most significant byte first. */
  lemma ByteOrder()
    ensures Bytes32(0x01020304) == [1, 2, 3, 4]
  {
    hide ByteOf;
    FourBytes();
  }

  lemma FourBytes()
    ensures ByteOf(0x01020304, 0x100_0000) == 1 && ByteOf(0x01020304, 0x1_0000) == 2
    ensures ByteOf(0x01020304, 0x100) == 3 && ByteOf(0x01020304, 1) == 4
  {
  }

  /** The eight words of a digest, in their order. */
  lemma DigestOrder(r: Regs)
    ensures var bs := DigestBytes(r);
      && |bs| == 32
      && bs[..4] == Bytes32(r.a) && bs[4..8] == Bytes32(r.b) && bs[8..12] == Bytes32(r.c) && bs[12..16] == Bytes32(r.d)
      && bs[16..20] == Bytes32(r.e) && bs[20..24] == Bytes32(r.f) && bs[24..28] == Bytes32(r.g) && bs[28..] == Bytes32(r.h)
  {
    hide Bytes32;
  }
}
