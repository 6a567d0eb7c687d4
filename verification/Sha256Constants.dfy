/**
 * Where the constants of `Sha256` come from: sections 4.2.2 and 5.3.3 of FIPS 180-4 take the first
 * 32 bits of the fractional parts of the cube and square roots of the first primes.
 */
module Sha256Constants {
  import opened Bytes
  import opened Sha256

  function Product(a: nat, b: nat): nat {
    a * b
  }

  ghost predicate IsPrime(p: nat) {
    p >= 2 && forall a: nat, b: nat :: a >= 2 && b >= 2 ==> Product(a, b) != p
  }

  /** n is the whole part of the root of p, and `fraction` the whole 2^-32ths of the rest. */
  predicate SquareRoot(p: nat, n: nat, fraction: nat) {
    var r := n * 0x1_0000_0000 + fraction;
    fraction < 0x1_0000_0000 && r * r <= p * 0x1_0000_0000_0000_0000 < (r + 1) * (r + 1)
  }

  predicate CubeRoot(p: nat, n: nat, fraction: nat) {
    var r := n * 0x1_0000_0000 + fraction;
    && fraction < 0x1_0000_0000
    && r * r * r <= p * 0x1_0000_0000_0000_0000_0000_0000 < (r + 1) * (r + 1) * (r + 1)
  }

  // ---------- the first primes ----------

  /** The first 64 primes, eight to a row. */
  const PRIMES: seq<seq<nat>> := [
    [2, 3, 5, 7, 11, 13, 17, 19],
    [23, 29, 31, 37, 41, 43, 47, 53],
    [59, 61, 67, 71, 73, 79, 83, 89],
    [97, 101, 103, 107, 109, 113, 127, 131],
    [137, 139, 149, 151, 157, 163, 167, 173],
    [179, 181, 191, 193, 197, 199, 211, 223],
    [227, 229, 233, 239, 241, 251, 257, 263],
    [269, 271, 277, 281, 283, 293, 307, 311]
  ]

  function Prime(t: nat): nat
    requires t < 64
  {
    PRIMES[t / 8][t % 8]
  }

  /** A number below 361 that none of 2 to 18 but itself divides is prime. */
  predicate Indivisible(p: nat) {
    && NotBy(p, 2) && NotBy(p, 3) && NotBy(p, 4) && NotBy(p, 5) && NotBy(p, 6) && NotBy(p, 7) && NotBy(p, 8)
    && NotBy(p, 9) && NotBy(p, 10) && NotBy(p, 11) && NotBy(p, 12) && NotBy(p, 13) && NotBy(p, 14) && NotBy(p, 15)
    && NotBy(p, 16) && NotBy(p, 17) && NotBy(p, 18)
  }

  predicate NotBy(p: nat, d: nat)
    requires d > 0
  {
    p <= d || p % d != 0
  }

  lemma IndivisibleBy(p: nat, d: nat)
    requires Indivisible(p) && 2 <= d <= 18
    ensures NotBy(p, d)
  {
    hide NotBy;
  }

  lemma FactorDivides(p: nat, a: nat, b: nat)
    requires a >= 2 && b >= 2 && Product(a, b) == p
    ensures a < p && b < p && p % a == 0 && p % b == 0
    ensures a <= 18 || b <= 18 || p >= 361
  {
    Multiple(a, b);
    Multiple(b, a);
    if a > 18 && b > 18 {
      Grows(a, 19, b);
      Grows(b, 19, 19);
    }
    Grows(b, 2, a);
    Grows(a, 2, b);
  }

  lemma Multiple(a: nat, b: nat)
    requires b > 0
    ensures a * b % b == 0 && b * a == a * b
  {
    DivideUnique(a * b, b, a, 0);
  }

  lemma Grows(x: nat, y: nat, factor: nat)
    requires x >= y
    ensures x * factor >= y * factor
  {
  }

  lemma IndivisibleIsPrime(p: nat)
    requires 2 <= p < 361 && Indivisible(p)
    ensures IsPrime(p)
  {
    hide Product, Indivisible;
    forall a: nat, b: nat | a >= 2 && b >= 2 ensures Product(a, b) != p {
      if Product(a, b) == p {
        FactorDivides(p, a, b);
        IndivisibleBy(p, if a <= 18 then a else b);
      }
    }
  }

  lemma Primes1To8()
    ensures Prime(0) == 2 && Prime(1) == 3 && Prime(2) == 5 && Prime(3) == 7
    ensures Prime(4) == 11 && Prime(5) == 13 && Prime(6) == 17 && Prime(7) == 19
  {
  }

  lemma Indivisible1To8()
    ensures Indivisible(2) && Indivisible(3) && Indivisible(5) && Indivisible(7)
    ensures Indivisible(11) && Indivisible(13) && Indivisible(17) && Indivisible(19)
  {
  }

  lemma Primes9To16()
    ensures Prime(8) == 23 && Prime(9) == 29 && Prime(10) == 31 && Prime(11) == 37
    ensures Prime(12) == 41 && Prime(13) == 43 && Prime(14) == 47 && Prime(15) == 53
  {
  }

  lemma Indivisible9To16()
    ensures Indivisible(23) && Indivisible(29) && Indivisible(31) && Indivisible(37)
    ensures Indivisible(41) && Indivisible(43) && Indivisible(47) && Indivisible(53)
  {
  }

  lemma Primes17To24()
    ensures Prime(16) == 59 && Prime(17) == 61 && Prime(18) == 67 && Prime(19) == 71
    ensures Prime(20) == 73 && Prime(21) == 79 && Prime(22) == 83 && Prime(23) == 89
  {
  }

  lemma Indivisible17To24()
    ensures Indivisible(59) && Indivisible(61) && Indivisible(67) && Indivisible(71)
    ensures Indivisible(73) && Indivisible(79) && Indivisible(83) && Indivisible(89)
  {
  }

  lemma Primes25To32()
    ensures Prime(24) == 97 && Prime(25) == 101 && Prime(26) == 103 && Prime(27) == 107
    ensures Prime(28) == 109 && Prime(29) == 113 && Prime(30) == 127 && Prime(31) == 131
  {
  }

  lemma Indivisible25To32()
    ensures Indivisible(97) && Indivisible(101) && Indivisible(103) && Indivisible(107)
    ensures Indivisible(109) && Indivisible(113) && Indivisible(127) && Indivisible(131)
  {
  }

  lemma Primes33To40()
    ensures Prime(32) == 137 && Prime(33) == 139 && Prime(34) == 149 && Prime(35) == 151
    ensures Prime(36) == 157 && Prime(37) == 163 && Prime(38) == 167 && Prime(39) == 173
  {
  }

  lemma Indivisible33To40()
    ensures Indivisible(137) && Indivisible(139) && Indivisible(149) && Indivisible(151)
    ensures Indivisible(157) && Indivisible(163) && Indivisible(167) && Indivisible(173)
  {
  }

  lemma Primes41To48()
    ensures Prime(40) == 179 && Prime(41) == 181 && Prime(42) == 191 && Prime(43) == 193
    ensures Prime(44) == 197 && Prime(45) == 199 && Prime(46) == 211 && Prime(47) == 223
  {
  }

  lemma Indivisible41To48()
    ensures Indivisible(179) && Indivisible(181) && Indivisible(191) && Indivisible(193)
    ensures Indivisible(197) && Indivisible(199) && Indivisible(211) && Indivisible(223)
  {
  }

  lemma Primes49To56()
    ensures Prime(48) == 227 && Prime(49) == 229 && Prime(50) == 233 && Prime(51) == 239
    ensures Prime(52) == 241 && Prime(53) == 251 && Prime(54) == 257 && Prime(55) == 263
  {
  }

  lemma Indivisible49To56()
    ensures Indivisible(227) && Indivisible(229) && Indivisible(233) && Indivisible(239)
    ensures Indivisible(241) && Indivisible(251) && Indivisible(257) && Indivisible(263)
  {
  }

  lemma Primes57To64()
    ensures Prime(56) == 269 && Prime(57) == 271 && Prime(58) == 277 && Prime(59) == 281
    ensures Prime(60) == 283 && Prime(61) == 293 && Prime(62) == 307 && Prime(63) == 311
  {
  }

  lemma Indivisible57To64()
    ensures Indivisible(269) && Indivisible(271) && Indivisible(277) && Indivisible(281)
    ensures Indivisible(283) && Indivisible(293) && Indivisible(307) && Indivisible(311)
  {
  }

  lemma PrimeIsPrime(t: nat)
    requires t < 64
    ensures IsPrime(Prime(t))
  {
    hide Prime, IsPrime, Indivisible;
    if t < 8 {
      Primes1To8();
      Indivisible1To8();
    } else if t < 16 {
      Primes9To16();
      Indivisible9To16();
    } else if t < 24 {
      Primes17To24();
      Indivisible17To24();
    } else if t < 32 {
      Primes25To32();
      Indivisible25To32();
    } else if t < 40 {
      Primes33To40();
      Indivisible33To40();
    } else if t < 48 {
      Primes41To48();
      Indivisible41To48();
    } else if t < 56 {
      Primes49To56();
      Indivisible49To56();
    } else {
      Primes57To64();
      Indivisible57To64();
    }
    IndivisibleIsPrime(Prime(t));
  }

  // ---------- their roots ----------

  lemma CubeRoots1To8()
    ensures CubeRoot(2, 1, 0x428a2f98)
    ensures CubeRoot(3, 1, 0x71374491)
    ensures CubeRoot(5, 1, 0xb5c0fbcf)
    ensures CubeRoot(7, 1, 0xe9b5dba5)
    ensures CubeRoot(11, 2, 0x3956c25b)
    ensures CubeRoot(13, 2, 0x59f111f1)
    ensures CubeRoot(17, 2, 0x923f82a4)
    ensures CubeRoot(19, 2, 0xab1c5ed5)
  {
  }

  lemma Constants1To8()
    ensures RoundConstant(0) == 0x428a2f98 && RoundConstant(1) == 0x71374491
    ensures RoundConstant(2) == 0xb5c0fbcf && RoundConstant(3) == 0xe9b5dba5
    ensures RoundConstant(4) == 0x3956c25b && RoundConstant(5) == 0x59f111f1
    ensures RoundConstant(6) == 0x923f82a4 && RoundConstant(7) == 0xab1c5ed5
  {
  }

  lemma Numbers1To8()
    ensures (0x428a2f98 as Word) as int == 0x428a2f98 && (0x71374491 as Word) as int == 0x71374491
    ensures (0xb5c0fbcf as Word) as int == 0xb5c0fbcf && (0xe9b5dba5 as Word) as int == 0xe9b5dba5
    ensures (0x3956c25b as Word) as int == 0x3956c25b && (0x59f111f1 as Word) as int == 0x59f111f1
    ensures (0x923f82a4 as Word) as int == 0x923f82a4 && (0xab1c5ed5 as Word) as int == 0xab1c5ed5
  {
  }

  lemma CubeRoots9To16()
    ensures CubeRoot(23, 2, 0xd807aa98)
    ensures CubeRoot(29, 3, 0x12835b01)
    ensures CubeRoot(31, 3, 0x243185be)
    ensures CubeRoot(37, 3, 0x550c7dc3)
    ensures CubeRoot(41, 3, 0x72be5d74)
    ensures CubeRoot(43, 3, 0x80deb1fe)
    ensures CubeRoot(47, 3, 0x9bdc06a7)
    ensures CubeRoot(53, 3, 0xc19bf174)
  {
  }

  lemma Constants9To16()
    ensures RoundConstant(8) == 0xd807aa98 && RoundConstant(9) == 0x12835b01
    ensures RoundConstant(10) == 0x243185be && RoundConstant(11) == 0x550c7dc3
    ensures RoundConstant(12) == 0x72be5d74 && RoundConstant(13) == 0x80deb1fe
    ensures RoundConstant(14) == 0x9bdc06a7 && RoundConstant(15) == 0xc19bf174
  {
  }

  lemma Numbers9To16()
    ensures (0xd807aa98 as Word) as int == 0xd807aa98 && (0x12835b01 as Word) as int == 0x12835b01
    ensures (0x243185be as Word) as int == 0x243185be && (0x550c7dc3 as Word) as int == 0x550c7dc3
    ensures (0x72be5d74 as Word) as int == 0x72be5d74 && (0x80deb1fe as Word) as int == 0x80deb1fe
    ensures (0x9bdc06a7 as Word) as int == 0x9bdc06a7 && (0xc19bf174 as Word) as int == 0xc19bf174
  {
  }

  lemma CubeRoots17To24()
    ensures CubeRoot(59, 3, 0xe49b69c1)
    ensures CubeRoot(61, 3, 0xefbe4786)
    ensures CubeRoot(67, 4, 0x0fc19dc6)
    ensures CubeRoot(71, 4, 0x240ca1cc)
    ensures CubeRoot(73, 4, 0x2de92c6f)
    ensures CubeRoot(79, 4, 0x4a7484aa)
    ensures CubeRoot(83, 4, 0x5cb0a9dc)
    ensures CubeRoot(89, 4, 0x76f988da)
  {
  }

  lemma Constants17To24()
    ensures RoundConstant(16) == 0xe49b69c1 && RoundConstant(17) == 0xefbe4786
    ensures RoundConstant(18) == 0x0fc19dc6 && RoundConstant(19) == 0x240ca1cc
    ensures RoundConstant(20) == 0x2de92c6f && RoundConstant(21) == 0x4a7484aa
    ensures RoundConstant(22) == 0x5cb0a9dc && RoundConstant(23) == 0x76f988da
  {
  }

  lemma Numbers17To24()
    ensures (0xe49b69c1 as Word) as int == 0xe49b69c1 && (0xefbe4786 as Word) as int == 0xefbe4786
    ensures (0x0fc19dc6 as Word) as int == 0x0fc19dc6 && (0x240ca1cc as Word) as int == 0x240ca1cc
    ensures (0x2de92c6f as Word) as int == 0x2de92c6f && (0x4a7484aa as Word) as int == 0x4a7484aa
    ensures (0x5cb0a9dc as Word) as int == 0x5cb0a9dc && (0x76f988da as Word) as int == 0x76f988da
  {
  }

  lemma CubeRoots25To32()
    ensures CubeRoot(97, 4, 0x983e5152)
    ensures CubeRoot(101, 4, 0xa831c66d)
    ensures CubeRoot(103, 4, 0xb00327c8)
    ensures CubeRoot(107, 4, 0xbf597fc7)
    ensures CubeRoot(109, 4, 0xc6e00bf3)
    ensures CubeRoot(113, 4, 0xd5a79147)
    ensures CubeRoot(127, 5, 0x06ca6351)
    ensures CubeRoot(131, 5, 0x14292967)
  {
  }

  lemma Constants25To32()
    ensures RoundConstant(24) == 0x983e5152 && RoundConstant(25) == 0xa831c66d
    ensures RoundConstant(26) == 0xb00327c8 && RoundConstant(27) == 0xbf597fc7
    ensures RoundConstant(28) == 0xc6e00bf3 && RoundConstant(29) == 0xd5a79147
    ensures RoundConstant(30) == 0x06ca6351 && RoundConstant(31) == 0x14292967
  {
  }

  lemma Numbers25To32()
    ensures (0x983e5152 as Word) as int == 0x983e5152 && (0xa831c66d as Word) as int == 0xa831c66d
    ensures (0xb00327c8 as Word) as int == 0xb00327c8 && (0xbf597fc7 as Word) as int == 0xbf597fc7
    ensures (0xc6e00bf3 as Word) as int == 0xc6e00bf3 && (0xd5a79147 as Word) as int == 0xd5a79147
    ensures (0x06ca6351 as Word) as int == 0x06ca6351 && (0x14292967 as Word) as int == 0x14292967
  {
  }

  lemma CubeRoots33To40()
    ensures CubeRoot(137, 5, 0x27b70a85)
    ensures CubeRoot(139, 5, 0x2e1b2138)
    ensures CubeRoot(149, 5, 0x4d2c6dfc)
    ensures CubeRoot(151, 5, 0x53380d13)
    ensures CubeRoot(157, 5, 0x650a7354)
    ensures CubeRoot(163, 5, 0x766a0abb)
    ensures CubeRoot(167, 5, 0x81c2c92e)
    ensures CubeRoot(173, 5, 0x92722c85)
  {
  }

  lemma Constants33To40()
    ensures RoundConstant(32) == 0x27b70a85 && RoundConstant(33) == 0x2e1b2138
    ensures RoundConstant(34) == 0x4d2c6dfc && RoundConstant(35) == 0x53380d13
    ensures RoundConstant(36) == 0x650a7354 && RoundConstant(37) == 0x766a0abb
    ensures RoundConstant(38) == 0x81c2c92e && RoundConstant(39) == 0x92722c85
  {
  }

  lemma Numbers33To40()
    ensures (0x27b70a85 as Word) as int == 0x27b70a85 && (0x2e1b2138 as Word) as int == 0x2e1b2138
    ensures (0x4d2c6dfc as Word) as int == 0x4d2c6dfc && (0x53380d13 as Word) as int == 0x53380d13
    ensures (0x650a7354 as Word) as int == 0x650a7354 && (0x766a0abb as Word) as int == 0x766a0abb
    ensures (0x81c2c92e as Word) as int == 0x81c2c92e && (0x92722c85 as Word) as int == 0x92722c85
  {
  }

  lemma CubeRoots41To48()
    ensures CubeRoot(179, 5, 0xa2bfe8a1)
    ensures CubeRoot(181, 5, 0xa81a664b)
    ensures CubeRoot(191, 5, 0xc24b8b70)
    ensures CubeRoot(193, 5, 0xc76c51a3)
    ensures CubeRoot(197, 5, 0xd192e819)
    ensures CubeRoot(199, 5, 0xd6990624)
    ensures CubeRoot(211, 5, 0xf40e3585)
    ensures CubeRoot(223, 6, 0x106aa070)
  {
  }

  lemma Constants41To48()
    ensures RoundConstant(40) == 0xa2bfe8a1 && RoundConstant(41) == 0xa81a664b
    ensures RoundConstant(42) == 0xc24b8b70 && RoundConstant(43) == 0xc76c51a3
    ensures RoundConstant(44) == 0xd192e819 && RoundConstant(45) == 0xd6990624
    ensures RoundConstant(46) == 0xf40e3585 && RoundConstant(47) == 0x106aa070
  {
  }

  lemma Numbers41To48()
    ensures (0xa2bfe8a1 as Word) as int == 0xa2bfe8a1 && (0xa81a664b as Word) as int == 0xa81a664b
    ensures (0xc24b8b70 as Word) as int == 0xc24b8b70 && (0xc76c51a3 as Word) as int == 0xc76c51a3
    ensures (0xd192e819 as Word) as int == 0xd192e819 && (0xd6990624 as Word) as int == 0xd6990624
    ensures (0xf40e3585 as Word) as int == 0xf40e3585 && (0x106aa070 as Word) as int == 0x106aa070
  {
  }

  lemma CubeRoots49To56()
    ensures CubeRoot(227, 6, 0x19a4c116)
    ensures CubeRoot(229, 6, 0x1e376c08)
    ensures CubeRoot(233, 6, 0x2748774c)
    ensures CubeRoot(239, 6, 0x34b0bcb5)
    ensures CubeRoot(241, 6, 0x391c0cb3)
    ensures CubeRoot(251, 6, 0x4ed8aa4a)
    ensures CubeRoot(257, 6, 0x5b9cca4f)
    ensures CubeRoot(263, 6, 0x682e6ff3)
  {
  }

  lemma Constants49To56()
    ensures RoundConstant(48) == 0x19a4c116 && RoundConstant(49) == 0x1e376c08
    ensures RoundConstant(50) == 0x2748774c && RoundConstant(51) == 0x34b0bcb5
    ensures RoundConstant(52) == 0x391c0cb3 && RoundConstant(53) == 0x4ed8aa4a
    ensures RoundConstant(54) == 0x5b9cca4f && RoundConstant(55) == 0x682e6ff3
  {
  }

  lemma Numbers49To56()
    ensures (0x19a4c116 as Word) as int == 0x19a4c116 && (0x1e376c08 as Word) as int == 0x1e376c08
    ensures (0x2748774c as Word) as int == 0x2748774c && (0x34b0bcb5 as Word) as int == 0x34b0bcb5
    ensures (0x391c0cb3 as Word) as int == 0x391c0cb3 && (0x4ed8aa4a as Word) as int == 0x4ed8aa4a
    ensures (0x5b9cca4f as Word) as int == 0x5b9cca4f && (0x682e6ff3 as Word) as int == 0x682e6ff3
  {
  }

  lemma CubeRoots57To64()
    ensures CubeRoot(269, 6, 0x748f82ee)
    ensures CubeRoot(271, 6, 0x78a5636f)
    ensures CubeRoot(277, 6, 0x84c87814)
    ensures CubeRoot(281, 6, 0x8cc70208)
    ensures CubeRoot(283, 6, 0x90befffa)
    ensures CubeRoot(293, 6, 0xa4506ceb)
    ensures CubeRoot(307, 6, 0xbef9a3f7)
    ensures CubeRoot(311, 6, 0xc67178f2)
  {
  }

  lemma Constants57To64()
    ensures RoundConstant(56) == 0x748f82ee && RoundConstant(57) == 0x78a5636f
    ensures RoundConstant(58) == 0x84c87814 && RoundConstant(59) == 0x8cc70208
    ensures RoundConstant(60) == 0x90befffa && RoundConstant(61) == 0xa4506ceb
    ensures RoundConstant(62) == 0xbef9a3f7 && RoundConstant(63) == 0xc67178f2
  {
  }

  lemma Numbers57To64()
    ensures (0x748f82ee as Word) as int == 0x748f82ee && (0x78a5636f as Word) as int == 0x78a5636f
    ensures (0x84c87814 as Word) as int == 0x84c87814 && (0x8cc70208 as Word) as int == 0x8cc70208
    ensures (0x90befffa as Word) as int == 0x90befffa && (0xa4506ceb as Word) as int == 0xa4506ceb
    ensures (0xbef9a3f7 as Word) as int == 0xbef9a3f7 && (0xc67178f2 as Word) as int == 0xc67178f2
  {
  }

  /** The whole part of the cube root. */
  function WholePart(t: nat): nat {
    if t < 4 then 1 else if t < 9 then 2 else if t < 18 then 3 else if t < 30 then 4 else if t < 47 then 5 else 6
  }

  /** Each round constant is taken from the cube root of its prime. */
  lemma RoundConstantIsRoot(t: nat)
    requires t < 64
    ensures IsPrime(Prime(t)) && CubeRoot(Prime(t), WholePart(t), RoundConstant(t) as int)
  {
    hide Prime, IsPrime, Indivisible, CubeRoot, RoundConstant;
    PrimeIsPrime(t);
    if t < 8 {
      Primes1To8();
      CubeRoots1To8();
      Constants1To8();
      Numbers1To8();
    } else if t < 16 {
      Primes9To16();
      CubeRoots9To16();
      Constants9To16();
      Numbers9To16();
    } else if t < 24 {
      Primes17To24();
      CubeRoots17To24();
      Constants17To24();
      Numbers17To24();
    } else if t < 32 {
      Primes25To32();
      CubeRoots25To32();
      Constants25To32();
      Numbers25To32();
    } else if t < 40 {
      Primes33To40();
      CubeRoots33To40();
      Constants33To40();
      Numbers33To40();
    } else if t < 48 {
      Primes41To48();
      CubeRoots41To48();
      Constants41To48();
      Numbers41To48();
    } else if t < 56 {
      Primes49To56();
      CubeRoots49To56();
      Constants49To56();
      Numbers49To56();
    } else {
      Primes57To64();
      CubeRoots57To64();
      Constants57To64();
      Numbers57To64();
    }
  }

  /** Each initial value is taken from the square root of one of the first eight primes. */
  lemma InitialIsRoot()
    ensures SquareRoot(Prime(0), 1, INITIAL.a as int)
    ensures SquareRoot(Prime(1), 1, INITIAL.b as int)
    ensures SquareRoot(Prime(2), 2, INITIAL.c as int)
    ensures SquareRoot(Prime(3), 2, INITIAL.d as int)
    ensures SquareRoot(Prime(4), 3, INITIAL.e as int)
    ensures SquareRoot(Prime(5), 3, INITIAL.f as int)
    ensures SquareRoot(Prime(6), 4, INITIAL.g as int)
    ensures SquareRoot(Prime(7), 4, INITIAL.h as int)
  {
    hide Prime, SquareRoot;
    Primes1To8();
    SquareRoots();
    InitialAsNumbers();
  }

  lemma SquareRoots()
    ensures SquareRoot(2, 1, 0x6a09e667)
    ensures SquareRoot(3, 1, 0xbb67ae85)
    ensures SquareRoot(5, 2, 0x3c6ef372)
    ensures SquareRoot(7, 2, 0xa54ff53a)
    ensures SquareRoot(11, 3, 0x510e527f)
    ensures SquareRoot(13, 3, 0x9b05688c)
    ensures SquareRoot(17, 4, 0x1f83d9ab)
    ensures SquareRoot(19, 4, 0x5be0cd19)
  {
  }

  lemma InitialAsNumbers()
    ensures INITIAL.a as int == 0x6a09e667 && INITIAL.b as int == 0xbb67ae85
    ensures INITIAL.c as int == 0x3c6ef372 && INITIAL.d as int == 0xa54ff53a
    ensures INITIAL.e as int == 0x510e527f && INITIAL.f as int == 0x9b05688c
    ensures INITIAL.g as int == 0x1f83d9ab && INITIAL.h as int == 0x5be0cd19
  {
  }
}
