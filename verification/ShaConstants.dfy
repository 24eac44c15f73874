/** The constants of SHA-256 are what sections 4.2.2 and 5.3.3 of FIPS 180-4 say they are: the
    first 32 bits of the fractional parts of the cube roots of the first 64 primes, and of the
    square roots of the first eight (platforms/BL616/utils_sha256.c, lines 56 to 96). */
module ShaConstants {
  import opened ShaCompress

  const PRIMES: seq<seq<nat>> := [
    [2, 3, 5, 7, 11, 13, 17, 19],
    [23, 29, 31, 37, 41, 43, 47, 53],
    [59, 61, 67, 71, 73, 79, 83, 89],
    [97, 101, 103, 107, 109, 113, 127, 131],
    [137, 139, 149, 151, 157, 163, 167, 173],
    [179, 181, 191, 193, 197, 199, 211, 223],
    [227, 229, 233, 239, 241, 251, 257, 263],
    [269, 271, 277, 281, 283, 293, 307, 311]]

  function Prime(t: nat): nat
    requires t < 64
  {
    PRIMES[t / 8][t % 8]
  }

  predicate IsPrime(n: nat) {
    n >= 2 && forall d {:trigger n % d} :: 2 <= d < n ==> n % d != 0
  }

  function Cube(x: nat): nat {
    x * x * x
  }

  /** `k` is the first 32 bits of the fractional part of the cube root of `p`, whose integer
      part is `n`: the root times 2^32, cut off, is n * 2^32 + k. */
  predicate CubeRootBits(p: nat, n: nat, k: nat) {
    Cube(n * 0x1_0000_0000 + k) <= p * 0x1_0000_0000_0000_0000_0000_0000 < Cube(n * 0x1_0000_0000 + k + 1)
  }

  lemma CubeRoots0(t: nat) returns (n: nat)
    requires 0 <= t < 8
    ensures CubeRootBits(Prime(t), n, K(t))
  {
    if t == 0 {
      n := 1;
      assert Prime(0) == 2 && K(0) == 0x428A2F98 && CubeRootBits(2, 1, 0x428A2F98);
    } else if t == 1 {
      n := 1;
      assert Prime(1) == 3 && K(1) == 0x71374491 && CubeRootBits(3, 1, 0x71374491);
    } else if t == 2 {
      n := 1;
      assert Prime(2) == 5 && K(2) == 0xB5C0FBCF && CubeRootBits(5, 1, 0xB5C0FBCF);
    } else if t == 3 {
      n := 1;
      assert Prime(3) == 7 && K(3) == 0xE9B5DBA5 && CubeRootBits(7, 1, 0xE9B5DBA5);
    } else if t == 4 {
      n := 2;
      assert Prime(4) == 11 && K(4) == 0x3956C25B && CubeRootBits(11, 2, 0x3956C25B);
    } else if t == 5 {
      n := 2;
      assert Prime(5) == 13 && K(5) == 0x59F111F1 && CubeRootBits(13, 2, 0x59F111F1);
    } else if t == 6 {
      n := 2;
      assert Prime(6) == 17 && K(6) == 0x923F82A4 && CubeRootBits(17, 2, 0x923F82A4);
    } else {
      n := 2;
      assert Prime(7) == 19 && K(7) == 0xAB1C5ED5 && CubeRootBits(19, 2, 0xAB1C5ED5);
    }
  }

  lemma CubeRoots1(t: nat) returns (n: nat)
    requires 8 <= t < 16
    ensures CubeRootBits(Prime(t), n, K(t))
  {
    if t == 8 {
      n := 2;
      assert Prime(8) == 23 && K(8) == 0xD807AA98 && CubeRootBits(23, 2, 0xD807AA98);
    } else if t == 9 {
      n := 3;
      assert Prime(9) == 29 && K(9) == 0x12835B01 && CubeRootBits(29, 3, 0x12835B01);
    } else if t == 10 {
      n := 3;
      assert Prime(10) == 31 && K(10) == 0x243185BE && CubeRootBits(31, 3, 0x243185BE);
    } else if t == 11 {
      n := 3;
      assert Prime(11) == 37 && K(11) == 0x550C7DC3 && CubeRootBits(37, 3, 0x550C7DC3);
    } else if t == 12 {
      n := 3;
      assert Prime(12) == 41 && K(12) == 0x72BE5D74 && CubeRootBits(41, 3, 0x72BE5D74);
    } else if t == 13 {
      n := 3;
      assert Prime(13) == 43 && K(13) == 0x80DEB1FE && CubeRootBits(43, 3, 0x80DEB1FE);
    } else if t == 14 {
      n := 3;
      assert Prime(14) == 47 && K(14) == 0x9BDC06A7 && CubeRootBits(47, 3, 0x9BDC06A7);
    } else {
      n := 3;
      assert Prime(15) == 53 && K(15) == 0xC19BF174 && CubeRootBits(53, 3, 0xC19BF174);
    }
  }

  lemma CubeRoots2(t: nat) returns (n: nat)
    requires 16 <= t < 24
    ensures CubeRootBits(Prime(t), n, K(t))
  {
    if t == 16 {
      n := 3;
      assert Prime(16) == 59 && K(16) == 0xE49B69C1 && CubeRootBits(59, 3, 0xE49B69C1);
    } else if t == 17 {
      n := 3;
      assert Prime(17) == 61 && K(17) == 0xEFBE4786 && CubeRootBits(61, 3, 0xEFBE4786);
    } else if t == 18 {
      n := 4;
      assert Prime(18) == 67 && K(18) == 0x0FC19DC6 && CubeRootBits(67, 4, 0x0FC19DC6);
    } else if t == 19 {
      n := 4;
      assert Prime(19) == 71 && K(19) == 0x240CA1CC && CubeRootBits(71, 4, 0x240CA1CC);
    } else if t == 20 {
      n := 4;
      assert Prime(20) == 73 && K(20) == 0x2DE92C6F && CubeRootBits(73, 4, 0x2DE92C6F);
    } else if t == 21 {
      n := 4;
      assert Prime(21) == 79 && K(21) == 0x4A7484AA && CubeRootBits(79, 4, 0x4A7484AA);
    } else if t == 22 {
      n := 4;
      assert Prime(22) == 83 && K(22) == 0x5CB0A9DC && CubeRootBits(83, 4, 0x5CB0A9DC);
    } else {
      n := 4;
      assert Prime(23) == 89 && K(23) == 0x76F988DA && CubeRootBits(89, 4, 0x76F988DA);
    }
  }

  lemma CubeRoots3(t: nat) returns (n: nat)
    requires 24 <= t < 32
    ensures CubeRootBits(Prime(t), n, K(t))
  {
    if t == 24 {
      n := 4;
      assert Prime(24) == 97 && K(24) == 0x983E5152 && CubeRootBits(97, 4, 0x983E5152);
    } else if t == 25 {
      n := 4;
      assert Prime(25) == 101 && K(25) == 0xA831C66D && CubeRootBits(101, 4, 0xA831C66D);
    } else if t == 26 {
      n := 4;
      assert Prime(26) == 103 && K(26) == 0xB00327C8 && CubeRootBits(103, 4, 0xB00327C8);
    } else if t == 27 {
      n := 4;
      assert Prime(27) == 107 && K(27) == 0xBF597FC7 && CubeRootBits(107, 4, 0xBF597FC7);
    } else if t == 28 {
      n := 4;
      assert Prime(28) == 109 && K(28) == 0xC6E00BF3 && CubeRootBits(109, 4, 0xC6E00BF3);
    } else if t == 29 {
      n := 4;
      assert Prime(29) == 113 && K(29) == 0xD5A79147 && CubeRootBits(113, 4, 0xD5A79147);
    } else if t == 30 {
      n := 5;
      assert Prime(30) == 127 && K(30) == 0x06CA6351 && CubeRootBits(127, 5, 0x06CA6351);
    } else {
      n := 5;
      assert Prime(31) == 131 && K(31) == 0x14292967 && CubeRootBits(131, 5, 0x14292967);
    }
  }

  lemma CubeRoots4(t: nat) returns (n: nat)
    requires 32 <= t < 40
    ensures CubeRootBits(Prime(t), n, K(t))
  {
    if t == 32 {
      n := 5;
      assert Prime(32) == 137 && K(32) == 0x27B70A85 && CubeRootBits(137, 5, 0x27B70A85);
    } else if t == 33 {
      n := 5;
      assert Prime(33) == 139 && K(33) == 0x2E1B2138 && CubeRootBits(139, 5, 0x2E1B2138);
    } else if t == 34 {
      n := 5;
      assert Prime(34) == 149 && K(34) == 0x4D2C6DFC && CubeRootBits(149, 5, 0x4D2C6DFC);
    } else if t == 35 {
      n := 5;
      assert Prime(35) == 151 && K(35) == 0x53380D13 && CubeRootBits(151, 5, 0x53380D13);
    } else if t == 36 {
      n := 5;
      assert Prime(36) == 157 && K(36) == 0x650A7354 && CubeRootBits(157, 5, 0x650A7354);
    } else if t == 37 {
      n := 5;
      assert Prime(37) == 163 && K(37) == 0x766A0ABB && CubeRootBits(163, 5, 0x766A0ABB);
    } else if t == 38 {
      n := 5;
      assert Prime(38) == 167 && K(38) == 0x81C2C92E && CubeRootBits(167, 5, 0x81C2C92E);
    } else {
      n := 5;
      assert Prime(39) == 173 && K(39) == 0x92722C85 && CubeRootBits(173, 5, 0x92722C85);
    }
  }

  lemma CubeRoots5(t: nat) returns (n: nat)
    requires 40 <= t < 48
    ensures CubeRootBits(Prime(t), n, K(t))
  {
    if t == 40 {
      n := 5;
      assert Prime(40) == 179 && K(40) == 0xA2BFE8A1 && CubeRootBits(179, 5, 0xA2BFE8A1);
    } else if t == 41 {
      n := 5;
      assert Prime(41) == 181 && K(41) == 0xA81A664B && CubeRootBits(181, 5, 0xA81A664B);
    } else if t == 42 {
      n := 5;
      assert Prime(42) == 191 && K(42) == 0xC24B8B70 && CubeRootBits(191, 5, 0xC24B8B70);
    } else if t == 43 {
      n := 5;
      assert Prime(43) == 193 && K(43) == 0xC76C51A3 && CubeRootBits(193, 5, 0xC76C51A3);
    } else if t == 44 {
      n := 5;
      assert Prime(44) == 197 && K(44) == 0xD192E819 && CubeRootBits(197, 5, 0xD192E819);
    } else if t == 45 {
      n := 5;
      assert Prime(45) == 199 && K(45) == 0xD6990624 && CubeRootBits(199, 5, 0xD6990624);
    } else if t == 46 {
      n := 5;
      assert Prime(46) == 211 && K(46) == 0xF40E3585 && CubeRootBits(211, 5, 0xF40E3585);
    } else {
      n := 6;
      assert Prime(47) == 223 && K(47) == 0x106AA070 && CubeRootBits(223, 6, 0x106AA070);
    }
  }

  lemma CubeRoots6(t: nat) returns (n: nat)
    requires 48 <= t < 56
    ensures CubeRootBits(Prime(t), n, K(t))
  {
    if t == 48 {
      n := 6;
      assert Prime(48) == 227 && K(48) == 0x19A4C116 && CubeRootBits(227, 6, 0x19A4C116);
    } else if t == 49 {
      n := 6;
      assert Prime(49) == 229 && K(49) == 0x1E376C08 && CubeRootBits(229, 6, 0x1E376C08);
    } else if t == 50 {
      n := 6;
      assert Prime(50) == 233 && K(50) == 0x2748774C && CubeRootBits(233, 6, 0x2748774C);
    } else if t == 51 {
      n := 6;
      assert Prime(51) == 239 && K(51) == 0x34B0BCB5 && CubeRootBits(239, 6, 0x34B0BCB5);
    } else if t == 52 {
      n := 6;
      assert Prime(52) == 241 && K(52) == 0x391C0CB3 && CubeRootBits(241, 6, 0x391C0CB3);
    } else if t == 53 {
      n := 6;
      assert Prime(53) == 251 && K(53) == 0x4ED8AA4A && CubeRootBits(251, 6, 0x4ED8AA4A);
    } else if t == 54 {
      n := 6;
      assert Prime(54) == 257 && K(54) == 0x5B9CCA4F && CubeRootBits(257, 6, 0x5B9CCA4F);
    } else {
      n := 6;
      assert Prime(55) == 263 && K(55) == 0x682E6FF3 && CubeRootBits(263, 6, 0x682E6FF3);
    }
  }

  lemma CubeRoots7(t: nat) returns (n: nat)
    requires 56 <= t < 64
    ensures CubeRootBits(Prime(t), n, K(t))
  {
    if t == 56 {
      n := 6;
      assert Prime(56) == 269 && K(56) == 0x748F82EE && CubeRootBits(269, 6, 0x748F82EE);
    } else if t == 57 {
      n := 6;
      assert Prime(57) == 271 && K(57) == 0x78A5636F && CubeRootBits(271, 6, 0x78A5636F);
    } else if t == 58 {
      n := 6;
      assert Prime(58) == 277 && K(58) == 0x84C87814 && CubeRootBits(277, 6, 0x84C87814);
    } else if t == 59 {
      n := 6;
      assert Prime(59) == 281 && K(59) == 0x8CC70208 && CubeRootBits(281, 6, 0x8CC70208);
    } else if t == 60 {
      n := 6;
      assert Prime(60) == 283 && K(60) == 0x90BEFFFA && CubeRootBits(283, 6, 0x90BEFFFA);
    } else if t == 61 {
      n := 6;
      assert Prime(61) == 293 && K(61) == 0xA4506CEB && CubeRootBits(293, 6, 0xA4506CEB);
    } else if t == 62 {
      n := 6;
      assert Prime(62) == 307 && K(62) == 0xBEF9A3F7 && CubeRootBits(307, 6, 0xBEF9A3F7);
    } else {
      n := 6;
      assert Prime(63) == 311 && K(63) == 0xC67178F2 && CubeRootBits(311, 6, 0xC67178F2);
    }
  }

  /** The t-th constant is the one of the t-th prime. */
  lemma CubeRoots(t: nat) returns (n: nat)
    requires t < 64
    ensures CubeRootBits(Prime(t), n, K(t))
  {
    hide CubeRootBits, Prime, K;
    if t < 8 {
      n := CubeRoots0(t);
    } else if t < 16 {
      n := CubeRoots1(t);
    } else if t < 24 {
      n := CubeRoots2(t);
    } else if t < 32 {
      n := CubeRoots3(t);
    } else if t < 40 {
      n := CubeRoots4(t);
    } else if t < 48 {
      n := CubeRoots5(t);
    } else if t < 56 {
      n := CubeRoots6(t);
    } else {
      n := CubeRoots7(t);
    }
  }

  /** Trial division up to 17 is enough below 324. */
  predicate NoSmallDivisor(n: nat) {
    && n >= 2
    && (n > 2 ==> n % 2 != 0) && (n > 3 ==> n % 3 != 0) && (n > 5 ==> n % 5 != 0) && (n > 7 ==> n % 7 != 0)
    && (n > 11 ==> n % 11 != 0) && (n > 13 ==> n % 13 != 0) && (n > 17 ==> n % 17 != 0)
  }

  lemma Divides(n: nat, d: nat, q: nat)
    requires d > 0 && n == d * q
    ensures n % d == 0
  {
    var r := n % d;
    assert n == d * (n / d) + r;
    Apart(d, q, n / d);
  }

  lemma Apart(d: nat, a: nat, b: nat)
    requires d > 0 && 0 <= d * a - d * b < d
    ensures a == b
  {
    if a > b {
      Further(d, a, b);
    } else if a < b {
      Further(d, b, a);
    }
  }

  lemma Further(d: nat, a: nat, b: nat)
    requires a > b
    ensures d * a >= d * b + d
  {
    Product(d, a, b + 1);
  }

  lemma SmallDivisor(n: nat, q: nat)
    requires 2 <= q < 18 && q < n && n % q == 0
    ensures !NoSmallDivisor(n)
  {
    if q == 4 { assert n % 2 == 0; }
    else if q == 6 { assert n % 2 == 0; }
    else if q == 8 { assert n % 2 == 0; }
    else if q == 9 { assert n % 3 == 0; }
    else if q == 10 { assert n % 2 == 0; }
    else if q == 12 { assert n % 2 == 0; }
    else if q == 14 { assert n % 2 == 0; }
    else if q == 15 { assert n % 3 == 0; }
    else if q == 16 { assert n % 2 == 0; }
    else { assert q in {2, 3, 5, 7, 11, 13, 17}; }
  }

  lemma Trial(n: nat)
    requires n < 324
    ensures IsPrime(n) <==> NoSmallDivisor(n)
  {
    if NoSmallDivisor(n) {
      forall d {:trigger n % d} | 2 <= d < n ensures n % d != 0 {
        if n % d == 0 {
          if d < 18 {
            SmallDivisor(n, d);
          } else {
            var q := n / d;
            assert n == d * q;
            SmallQuotient(n, d, q);
            Divides(n, q, d);
            SmallDivisor(n, q);
          }
        }
      }
    }
  }

  lemma SmallQuotient(n: nat, d: nat, q: nat)
    requires 18 <= d < n < 324 && n == d * q
    ensures 2 <= q < 18
  {
    if q >= 18 {
      Product(d, q, 18);
    }
  }

  lemma Product(d: nat, q: nat, k: nat)
    requires q >= k
    ensures d * q >= d * k
  {
  }

  lemma Primes0(n: nat)
    requires 0 <= n <= 25
    ensures NoSmallDivisor(n) <==> n == 2 || n == 3 || n == 5 || n == 7 || n == 11 || n == 13 || n == 17 || n == 19 || n == 23
  {
    var a, b, c := n / 2, n / 3, n / 5;
  }

  lemma Primes1(n: nat)
    requires 26 <= n <= 51
    ensures NoSmallDivisor(n) <==> n == 29 || n == 31 || n == 37 || n == 41 || n == 43 || n == 47
  {
    var a, b, c := n / 2, n / 3, n / 5;
  }

  lemma Primes2(n: nat)
    requires 52 <= n <= 77
    ensures NoSmallDivisor(n) <==> n == 53 || n == 59 || n == 61 || n == 67 || n == 71 || n == 73
  {
    var a, b, c := n / 2, n / 3, n / 5;
  }

  lemma Primes3(n: nat)
    requires 78 <= n <= 103
    ensures NoSmallDivisor(n) <==> n == 79 || n == 83 || n == 89 || n == 97 || n == 101 || n == 103
  {
    var a, b, c := n / 2, n / 3, n / 5;
  }

  lemma Primes4(n: nat)
    requires 104 <= n <= 129
    ensures NoSmallDivisor(n) <==> n == 107 || n == 109 || n == 113 || n == 127
  {
    var a, b, c := n / 2, n / 3, n / 5;
  }

  lemma Primes5(n: nat)
    requires 130 <= n <= 155
    ensures NoSmallDivisor(n) <==> n == 131 || n == 137 || n == 139 || n == 149 || n == 151
  {
    var a, b, c := n / 2, n / 3, n / 5;
  }

  lemma Primes6(n: nat)
    requires 156 <= n <= 181
    ensures NoSmallDivisor(n) <==> n == 157 || n == 163 || n == 167 || n == 173 || n == 179 || n == 181
  {
    var a, b, c := n / 2, n / 3, n / 5;
  }

  lemma Primes7(n: nat)
    requires 182 <= n <= 207
    ensures NoSmallDivisor(n) <==> n == 191 || n == 193 || n == 197 || n == 199
  {
    var a, b, c := n / 2, n / 3, n / 5;
  }

  lemma Primes8(n: nat)
    requires 208 <= n <= 233
    ensures NoSmallDivisor(n) <==> n == 211 || n == 223 || n == 227 || n == 229 || n == 233
  {
    var a, b, c := n / 2, n / 3, n / 5;
  }

  lemma Primes9(n: nat)
    requires 234 <= n <= 259
    ensures NoSmallDivisor(n) <==> n == 239 || n == 241 || n == 251 || n == 257
  {
    var a, b, c := n / 2, n / 3, n / 5;
  }

  lemma Primes10(n: nat)
    requires 260 <= n <= 285
    ensures NoSmallDivisor(n) <==> n == 263 || n == 269 || n == 271 || n == 277 || n == 281 || n == 283
  {
    var a, b, c := n / 2, n / 3, n / 5;
  }

  lemma Primes11(n: nat)
    requires 286 <= n <= 311
    ensures NoSmallDivisor(n) <==> n == 293 || n == 307 || n == 311
  {
    var a, b, c := n / 2, n / 3, n / 5;
  }

  lemma Table()
    ensures Prime(0) == 2 && Prime(1) == 3 && Prime(2) == 5 && Prime(3) == 7 && Prime(4) == 11 && Prime(5) == 13 && Prime(6) == 17 && Prime(7) == 19
    ensures Prime(8) == 23 && Prime(9) == 29 && Prime(10) == 31 && Prime(11) == 37 && Prime(12) == 41 && Prime(13) == 43 && Prime(14) == 47 && Prime(15) == 53
    ensures Prime(16) == 59 && Prime(17) == 61 && Prime(18) == 67 && Prime(19) == 71 && Prime(20) == 73 && Prime(21) == 79 && Prime(22) == 83 && Prime(23) == 89
    ensures Prime(24) == 97 && Prime(25) == 101 && Prime(26) == 103 && Prime(27) == 107 && Prime(28) == 109 && Prime(29) == 113 && Prime(30) == 127 && Prime(31) == 131
    ensures Prime(32) == 137 && Prime(33) == 139 && Prime(34) == 149 && Prime(35) == 151 && Prime(36) == 157 && Prime(37) == 163 && Prime(38) == 167 && Prime(39) == 173
    ensures Prime(40) == 179 && Prime(41) == 181 && Prime(42) == 191 && Prime(43) == 193 && Prime(44) == 197 && Prime(45) == 199 && Prime(46) == 211 && Prime(47) == 223
    ensures Prime(48) == 227 && Prime(49) == 229 && Prime(50) == 233 && Prime(51) == 239 && Prime(52) == 241 && Prime(53) == 251 && Prime(54) == 257 && Prime(55) == 263
    ensures Prime(56) == 269 && Prime(57) == 271 && Prime(58) == 277 && Prime(59) == 281 && Prime(60) == 283 && Prime(61) == 293 && Prime(62) == 307 && Prime(63) == 311
  {
  }

  /** The table has exactly the primes up to 311, so, as it increases, the first 64. */
  lemma FirstPrimes(n: nat) returns (t: nat)
    requires n <= 311
    ensures IsPrime(n) <==> t < 64 && Prime(t) == n
  {
    Trial(n);
    Table();
    hide IsPrime, NoSmallDivisor, Prime;
    t := 64;
    if n <= 25 {
      Primes0(n);
      t := if n == 2 then 0 else if n == 3 then 1 else if n == 5 then 2 else if n == 7 then 3 else if n == 11 then 4 else if n == 13 then 5 else if n == 17 then 6 else if n == 19 then 7 else if n == 23 then 8 else 64;
    } else if n <= 51 {
      Primes1(n);
      t := if n == 29 then 9 else if n == 31 then 10 else if n == 37 then 11 else if n == 41 then 12 else if n == 43 then 13 else if n == 47 then 14 else 64;
    } else if n <= 77 {
      Primes2(n);
      t := if n == 53 then 15 else if n == 59 then 16 else if n == 61 then 17 else if n == 67 then 18 else if n == 71 then 19 else if n == 73 then 20 else 64;
    } else if n <= 103 {
      Primes3(n);
      t := if n == 79 then 21 else if n == 83 then 22 else if n == 89 then 23 else if n == 97 then 24 else if n == 101 then 25 else if n == 103 then 26 else 64;
    } else if n <= 129 {
      Primes4(n);
      t := if n == 107 then 27 else if n == 109 then 28 else if n == 113 then 29 else if n == 127 then 30 else 64;
    } else if n <= 155 {
      Primes5(n);
      t := if n == 131 then 31 else if n == 137 then 32 else if n == 139 then 33 else if n == 149 then 34 else if n == 151 then 35 else 64;
    } else if n <= 181 {
      Primes6(n);
      t := if n == 157 then 36 else if n == 163 then 37 else if n == 167 then 38 else if n == 173 then 39 else if n == 179 then 40 else if n == 181 then 41 else 64;
    } else if n <= 207 {
      Primes7(n);
      t := if n == 191 then 42 else if n == 193 then 43 else if n == 197 then 44 else if n == 199 then 45 else 64;
    } else if n <= 233 {
      Primes8(n);
      t := if n == 211 then 46 else if n == 223 then 47 else if n == 227 then 48 else if n == 229 then 49 else if n == 233 then 50 else 64;
    } else if n <= 259 {
      Primes9(n);
      t := if n == 239 then 51 else if n == 241 then 52 else if n == 251 then 53 else if n == 257 then 54 else 64;
    } else if n <= 285 {
      Primes10(n);
      t := if n == 263 then 55 else if n == 269 then 56 else if n == 271 then 57 else if n == 277 then 58 else if n == 281 then 59 else if n == 283 then 60 else 64;
    } else {
      Primes11(n);
      t := if n == 293 then 61 else if n == 307 then 62 else if n == 311 then 63 else 64;
    }
  }

  lemma Increasing(t: nat)
    requires t < 63
    ensures Prime(t) < Prime(t + 1)
  {
    Table();
    hide Prime;
  }

  function Square(x: nat): nat {
    x * x
  }

  /** The same for the square root. */
  predicate SquareRootBits(p: nat, n: nat, k: nat) {
    Square(n * 0x1_0000_0000 + k) <= p * 0x1_0000_0000_0000_0000 < Square(n * 0x1_0000_0000 + k + 1)
  }

  /** The initial hash value is made of the first eight primes. */
  lemma SquareRoots()
    ensures SquareRootBits(Prime(0), 1, INITIAL.a) && SquareRootBits(Prime(1), 1, INITIAL.b)
    ensures SquareRootBits(Prime(2), 2, INITIAL.c) && SquareRootBits(Prime(3), 2, INITIAL.d)
    ensures SquareRootBits(Prime(4), 3, INITIAL.e) && SquareRootBits(Prime(5), 3, INITIAL.f)
    ensures SquareRootBits(Prime(6), 4, INITIAL.g) && SquareRootBits(Prime(7), 4, INITIAL.h)
  {
  }
}
