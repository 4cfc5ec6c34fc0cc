// What the words of SHA-256 are, said apart from the code that writes them
// down: the functions bit by bit (section 4.1.2 of FIPS 180-4), the constants
// by the roots of the first primes (sections 4.2.2 and 5.3.3).
module Sha256Words {
  import opened Sha256Spec

  // ---- The functions ----

  /** One place to the right, the lowest bit coming in at the top. */
  function Turn(x: Word): (r: Word) {
    (x >> 1) | ((x & 1) << 31)
  }

  function Turned(x: Word, n: bv6): (r: Word)
    decreases n
  {
    if n == 0 then x else Turn(Turned(x, n - 1))
  }

  /** Bit `k` of a word, counted from the low end. */
  predicate Bit(x: Word, k: nat) {
    if k == 0 then x & 1 == 1 else Bit(x >> 1, k - 1)
  }

  lemma HighBit(x: Word, y: Word, k: nat)
    requires k > 0 && x >> 1 == y
    ensures Bit(x, k) == Bit(y, k - 1)
  {
  }

  lemma ChooseLow(x: Word, y: Word, z: Word)
    ensures Bit(Choose(x, y, z), 0) <==> if Bit(x, 0) then Bit(y, 0) else Bit(z, 0)
  {
  }

  lemma ChooseShifts(x: Word, y: Word, z: Word)
    ensures Choose(x, y, z) >> 1 == Choose(x >> 1, y >> 1, z >> 1)
  {
  }

  lemma {:induction false} ChooseBit(x: Word, y: Word, z: Word, k: nat)
    ensures Bit(Choose(x, y, z), k) <==> if Bit(x, k) then Bit(y, k) else Bit(z, k)
    decreases k
  {
    if k == 0 {
      ChooseLow(x, y, z);
    } else {
      ChooseShifts(x, y, z);
      HighBit(Choose(x, y, z), Choose(x >> 1, y >> 1, z >> 1), k);
      ChooseBit(x >> 1, y >> 1, z >> 1, k - 1);
    }
  }

  lemma MajorityLow(x: Word, y: Word, z: Word)
    ensures Bit(Majority(x, y, z), 0) <==>
            (Bit(x, 0) && Bit(y, 0)) || (Bit(x, 0) && Bit(z, 0)) || (Bit(y, 0) && Bit(z, 0))
  {
  }

  lemma MajorityShifts(x: Word, y: Word, z: Word)
    ensures Majority(x, y, z) >> 1 == Majority(x >> 1, y >> 1, z >> 1)
  {
  }

  lemma {:induction false} MajorityBit(x: Word, y: Word, z: Word, k: nat)
    ensures Bit(Majority(x, y, z), k) <==>
            (Bit(x, k) && Bit(y, k)) || (Bit(x, k) && Bit(z, k)) || (Bit(y, k) && Bit(z, k))
    decreases k
  {
    if k == 0 {
      MajorityLow(x, y, z);
    } else {
      MajorityShifts(x, y, z);
      HighBit(Majority(x, y, z), Majority(x >> 1, y >> 1, z >> 1), k);
      MajorityBit(x >> 1, y >> 1, z >> 1, k - 1);
    }
  }

  lemma RotateOnce(x: Word)
    ensures RotateRight(x, 1) == Turn(x)
  {
  }

  lemma RotateOnceMore(x: Word, n: bv6)
    requires 0 < n < 31
    ensures RotateRight(x, n + 1) == Turn(RotateRight(x, n))
  {
  }

  lemma TurnedOnce(x: Word)
    ensures Turned(x, 1) == Turn(x)
  {
    assert Turned(x, 0) == x;
  }

  lemma {:induction false} RotateIsTurned(x: Word, n: bv6)
    requires 0 < n < 32
    ensures RotateRight(x, n) == Turned(x, n)
    decreases n
  {
    if n == 1 {
      RotateOnce(x);
      TurnedOnce(x);
    } else {
      RotateIsTurned(x, n - 1);
      RotateOnceMore(x, n - 1);
    }
  }

  function Xor3(x: Word, y: Word, z: Word): (r: Word) {
    x ^ y ^ z
  }

  lemma BigSigma0Rotates(x: Word)
    ensures BigSigma0(x) == Xor3(RotateRight(x, 2), RotateRight(x, 13), RotateRight(x, 22))
  {
  }

  lemma BigSigma0Turns(x: Word, p: bv6, q: bv6, r: bv6)
    requires p == 2 && q == 13 && r == 22
    ensures SHA256.bigSigma0(x) == Xor3(Turned(x, p), Turned(x, q), Turned(x, r))
  {
    BigSigma0Rotates(x);
    RotateIsTurned(x, p);
    RotateIsTurned(x, q);
    RotateIsTurned(x, r);
  }

  lemma BigSigma1Rotates(x: Word)
    ensures BigSigma1(x) == Xor3(RotateRight(x, 6), RotateRight(x, 11), RotateRight(x, 25))
  {
  }

  lemma BigSigma1Turns(x: Word, p: bv6, q: bv6, r: bv6)
    requires p == 6 && q == 11 && r == 25
    ensures SHA256.bigSigma1(x) == Xor3(Turned(x, p), Turned(x, q), Turned(x, r))
  {
    BigSigma1Rotates(x);
    RotateIsTurned(x, p);
    RotateIsTurned(x, q);
    RotateIsTurned(x, r);
  }

  lemma Sigma0Rotates(x: Word)
    ensures Sigma0(x) == Xor3(RotateRight(x, 7), RotateRight(x, 18), x >> 3)
  {
  }

  lemma Sigma0Turns(x: Word, p: bv6, q: bv6)
    requires p == 7 && q == 18
    ensures SHA256.sigma0(x) == Xor3(Turned(x, p), Turned(x, q), x >> 3)
  {
    Sigma0Rotates(x);
    RotateIsTurned(x, p);
    RotateIsTurned(x, q);
  }

  lemma Sigma1Rotates(x: Word)
    ensures Sigma1(x) == Xor3(RotateRight(x, 17), RotateRight(x, 19), x >> 10)
  {
  }

  lemma Sigma1Turns(x: Word, p: bv6, q: bv6)
    requires p == 17 && q == 19
    ensures SHA256.sigma1(x) == Xor3(Turned(x, p), Turned(x, q), x >> 10)
  {
    Sigma1Rotates(x);
    RotateIsTurned(x, p);
    RotateIsTurned(x, q);
  }

  /** Choose takes each bit from one word or the other, as the first word says. */
  lemma ChoiceBits(x: Word, y: Word, z: Word, k: nat)
    ensures Bit(SHA256.choose(x, y, z), k) <==> if Bit(x, k) then Bit(y, k) else Bit(z, k)
  {
    ChooseBit(x, y, z, k);
  }

  /** Majority sets a bit that two of the three words set. */
  lemma MajorityBits(x: Word, y: Word, z: Word, k: nat)
    ensures Bit(SHA256.majority(x, y, z), k) <==>
            (Bit(x, k) && Bit(y, k)) || (Bit(x, k) && Bit(z, k)) || (Bit(y, k) && Bit(z, k))
  {
    MajorityBit(x, y, z, k);
  }

  // ---- The constants ----

  /** `w` holds the first 32 binary digits behind the point of the cube root of `p`. */
  predicate CubeRootDigits(p: nat, w: nat, whole: nat) {
    var root := whole * 0x1_0000_0000 + w;
    w < 0x1_0000_0000 && root * root * root <= p * 0x1_0000_0000_0000_0000_0000_0000
    && p * 0x1_0000_0000_0000_0000_0000_0000 < (root + 1) * (root + 1) * (root + 1)
  }

  /** The same for the square root. */
  predicate SquareRootDigits(p: nat, w: nat, whole: nat) {
    var root := whole * 0x1_0000_0000 + w;
    w < 0x1_0000_0000 && root * root <= p * 0x1_0000_0000_0000_0000
    && p * 0x1_0000_0000_0000_0000 < (root + 1) * (root + 1)
  }

  // The round constants, eight by eight: the cube roots of the first 64 primes.

  lemma RoundConstants0()
    ensures CubeRootDigits(2, K[0] as nat, 1) && CubeRootDigits(3, K[1] as nat, 1)
    ensures CubeRootDigits(5, K[2] as nat, 1) && CubeRootDigits(7, K[3] as nat, 1)
    ensures CubeRootDigits(11, K[4] as nat, 2) && CubeRootDigits(13, K[5] as nat, 2)
    ensures CubeRootDigits(17, K[6] as nat, 2) && CubeRootDigits(19, K[7] as nat, 2)
  {
  }

  lemma RoundConstants8()
    ensures CubeRootDigits(23, K[8] as nat, 2) && CubeRootDigits(29, K[9] as nat, 3)
    ensures CubeRootDigits(31, K[10] as nat, 3) && CubeRootDigits(37, K[11] as nat, 3)
    ensures CubeRootDigits(41, K[12] as nat, 3) && CubeRootDigits(43, K[13] as nat, 3)
    ensures CubeRootDigits(47, K[14] as nat, 3) && CubeRootDigits(53, K[15] as nat, 3)
  {
  }

  lemma RoundConstants16()
    ensures CubeRootDigits(59, K[16] as nat, 3) && CubeRootDigits(61, K[17] as nat, 3)
    ensures CubeRootDigits(67, K[18] as nat, 4) && CubeRootDigits(71, K[19] as nat, 4)
    ensures CubeRootDigits(73, K[20] as nat, 4) && CubeRootDigits(79, K[21] as nat, 4)
    ensures CubeRootDigits(83, K[22] as nat, 4) && CubeRootDigits(89, K[23] as nat, 4)
  {
  }

  lemma RoundConstants24()
    ensures CubeRootDigits(97, K[24] as nat, 4) && CubeRootDigits(101, K[25] as nat, 4)
    ensures CubeRootDigits(103, K[26] as nat, 4) && CubeRootDigits(107, K[27] as nat, 4)
    ensures CubeRootDigits(109, K[28] as nat, 4) && CubeRootDigits(113, K[29] as nat, 4)
    ensures CubeRootDigits(127, K[30] as nat, 5) && CubeRootDigits(131, K[31] as nat, 5)
  {
  }

  lemma RoundConstants32()
    ensures CubeRootDigits(137, K[32] as nat, 5) && CubeRootDigits(139, K[33] as nat, 5)
    ensures CubeRootDigits(149, K[34] as nat, 5) && CubeRootDigits(151, K[35] as nat, 5)
    ensures CubeRootDigits(157, K[36] as nat, 5) && CubeRootDigits(163, K[37] as nat, 5)
    ensures CubeRootDigits(167, K[38] as nat, 5) && CubeRootDigits(173, K[39] as nat, 5)
  {
  }

  lemma RoundConstants40()
    ensures CubeRootDigits(179, K[40] as nat, 5) && CubeRootDigits(181, K[41] as nat, 5)
    ensures CubeRootDigits(191, K[42] as nat, 5) && CubeRootDigits(193, K[43] as nat, 5)
    ensures CubeRootDigits(197, K[44] as nat, 5) && CubeRootDigits(199, K[45] as nat, 5)
    ensures CubeRootDigits(211, K[46] as nat, 5) && CubeRootDigits(223, K[47] as nat, 6)
  {
  }

  lemma RoundConstants48()
    ensures CubeRootDigits(227, K[48] as nat, 6) && CubeRootDigits(229, K[49] as nat, 6)
    ensures CubeRootDigits(233, K[50] as nat, 6) && CubeRootDigits(239, K[51] as nat, 6)
    ensures CubeRootDigits(241, K[52] as nat, 6) && CubeRootDigits(251, K[53] as nat, 6)
    ensures CubeRootDigits(257, K[54] as nat, 6) && CubeRootDigits(263, K[55] as nat, 6)
  {
  }

  lemma RoundConstants56()
    ensures CubeRootDigits(269, K[56] as nat, 6) && CubeRootDigits(271, K[57] as nat, 6)
    ensures CubeRootDigits(277, K[58] as nat, 6) && CubeRootDigits(281, K[59] as nat, 6)
    ensures CubeRootDigits(283, K[60] as nat, 6) && CubeRootDigits(293, K[61] as nat, 6)
    ensures CubeRootDigits(307, K[62] as nat, 6) && CubeRootDigits(311, K[63] as nat, 6)
  {
  }

  /** The initial words are those of the square roots of the first eight primes. */
  lemma InitialWords()
    ensures SquareRootDigits(2, SHA256.initial.a as nat, 1) && SquareRootDigits(3, SHA256.initial.b as nat, 1)
    ensures SquareRootDigits(5, SHA256.initial.c as nat, 2) && SquareRootDigits(7, SHA256.initial.d as nat, 2)
    ensures SquareRootDigits(11, SHA256.initial.e as nat, 3) && SquareRootDigits(13, SHA256.initial.f as nat, 3)
    ensures SquareRootDigits(17, SHA256.initial.g as nat, 4) && SquareRootDigits(19, SHA256.initial.h as nat, 4)
  {
  }
}
