/** Choice and majority of FIPS 180-4, section 4.1.2, and the forms with one operation less
    that are computed (platforms/BL616/utils_sha256.c, lines 153 and 154). */
module ShaBits {

  function ChBits(x: bv32, y: bv32, z: bv32): bv32 {
    (x & y) ^ (!x & z)
  }

  function MajBits(x: bv32, y: bv32, z: bv32): bv32 {
    (x & y) ^ (x & z) ^ (y & z)
  }

  function F0Bits(x: bv32, y: bv32, z: bv32): bv32 {
    (x & y) | (z & (x | y))
  }

  function F1Bits(x: bv32, y: bv32, z: bv32): bv32 {
    z ^ (x & (y ^ z))
  }

  lemma MajorityLaw(x: bv32, y: bv32, z: bv32)
    ensures (x & y) | (z & (x | y)) == (x & y) ^ (x & z) ^ (y & z)
  {
  }

  lemma ChoiceLaw(x: bv32, y: bv32, z: bv32)
    ensures z ^ (x & (y ^ z)) == (x & y) ^ (!x & z)
  {
  }

  lemma MajorityBits(x: bv32, y: bv32, z: bv32)
    ensures F0Bits(x, y, z) == MajBits(x, y, z)
  {
    MajorityLaw(x, y, z);
  }

  lemma ChoiceBits(x: bv32, y: bv32, z: bv32)
    ensures F1Bits(x, y, z) == ChBits(x, y, z)
  {
    ChoiceLaw(x, y, z);
  }
}
