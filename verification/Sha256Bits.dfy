/**
 * What the functions of `Sha256` do to single bits, and what its words are as numbers: section
 * 4.1.2 of FIPS 180-4 told apart from rotations, shifts and masks.
 */
module Sha256Bits {
  import opened Bytes
  import opened Sha256

  // ---------- bit by bit ----------

  /** The word turned right i places. */
  function Turned(x: Word, i: nat): Word
    requires i < 32
  {
    match i
    case 0 => x
    case 1 => x.RotateRight(1)
    case 2 => x.RotateRight(2)
    case 3 => x.RotateRight(3)
    case 4 => x.RotateRight(4)
    case 5 => x.RotateRight(5)
    case 6 => x.RotateRight(6)
    case 7 => x.RotateRight(7)
    case 8 => x.RotateRight(8)
    case 9 => x.RotateRight(9)
    case 10 => x.RotateRight(10)
    case 11 => x.RotateRight(11)
    case 12 => x.RotateRight(12)
    case 13 => x.RotateRight(13)
    case 14 => x.RotateRight(14)
    case 15 => x.RotateRight(15)
    case 16 => x.RotateRight(16)
    case 17 => x.RotateRight(17)
    case 18 => x.RotateRight(18)
    case 19 => x.RotateRight(19)
    case 20 => x.RotateRight(20)
    case 21 => x.RotateRight(21)
    case 22 => x.RotateRight(22)
    case 23 => x.RotateRight(23)
    case 24 => x.RotateRight(24)
    case 25 => x.RotateRight(25)
    case 26 => x.RotateRight(26)
    case 27 => x.RotateRight(27)
    case 28 => x.RotateRight(28)
    case 29 => x.RotateRight(29)
    case 30 => x.RotateRight(30)
    case _ => x.RotateRight(31)
  }


  lemma TurnedBy2(x: Word)
    ensures Turned(x, 2) == x.RotateRight(2)
  {
  }

  lemma TurnedBy3(x: Word)
    ensures Turned(x, 3) == x.RotateRight(3)
  {
  }

  lemma TurnedBy6(x: Word)
    ensures Turned(x, 6) == x.RotateRight(6)
  {
  }

  lemma TurnedBy7(x: Word)
    ensures Turned(x, 7) == x.RotateRight(7)
  {
  }

  lemma TurnedBy10(x: Word)
    ensures Turned(x, 10) == x.RotateRight(10)
  {
  }

  lemma TurnedBy11(x: Word)
    ensures Turned(x, 11) == x.RotateRight(11)
  {
  }

  lemma TurnedBy13(x: Word)
    ensures Turned(x, 13) == x.RotateRight(13)
  {
  }

  lemma TurnedBy17(x: Word)
    ensures Turned(x, 17) == x.RotateRight(17)
  {
  }

  lemma TurnedBy18(x: Word)
    ensures Turned(x, 18) == x.RotateRight(18)
  {
  }

  lemma TurnedBy19(x: Word)
    ensures Turned(x, 19) == x.RotateRight(19)
  {
  }

  lemma TurnedBy22(x: Word)
    ensures Turned(x, 22) == x.RotateRight(22)
  {
  }

  lemma TurnedBy25(x: Word)
    ensures Turned(x, 25) == x.RotateRight(25)
  {
  }

  predicate Low(x: Word) {
    x & 1 == 1
  }

  /** Bit i of a word, the lowest being bit 0: the lowest once the word is turned that far. */
  predicate Bit(x: Word, i: nat)
    requires i < 32
  {
    Low(Turned(x, i))
  }

  /** Exactly one or all three. */
  predicate Odd(a: bool, b: bool, c: bool) {
    a != (b != c)
  }

  lemma OneMore(x: Word, i: nat)
    requires i < 32
    ensures Turned(Turned(x, i), 1) == Turned(x, (i + 1) % 32)
  {
    hide Turned;
    match i
    case 0 => OneMore0(x);
    case 1 => OneMore1(x);
    case 2 => OneMore2(x);
    case 3 => OneMore3(x);
    case 4 => OneMore4(x);
    case 5 => OneMore5(x);
    case 6 => OneMore6(x);
    case 7 => OneMore7(x);
    case 8 => OneMore8(x);
    case 9 => OneMore9(x);
    case 10 => OneMore10(x);
    case 11 => OneMore11(x);
    case 12 => OneMore12(x);
    case 13 => OneMore13(x);
    case 14 => OneMore14(x);
    case 15 => OneMore15(x);
    case 16 => OneMore16(x);
    case 17 => OneMore17(x);
    case 18 => OneMore18(x);
    case 19 => OneMore19(x);
    case 20 => OneMore20(x);
    case 21 => OneMore21(x);
    case 22 => OneMore22(x);
    case 23 => OneMore23(x);
    case 24 => OneMore24(x);
    case 25 => OneMore25(x);
    case 26 => OneMore26(x);
    case 27 => OneMore27(x);
    case 28 => OneMore28(x);
    case 29 => OneMore29(x);
    case 30 => OneMore30(x);
    case _ => OneMore31(x);
  }

  lemma OneMore0(x: Word)
    ensures Turned(Turned(x, 0), 1) == Turned(x, 1)
  {
  }

  lemma OneMore1(x: Word)
    ensures Turned(Turned(x, 1), 1) == Turned(x, 2)
  {
  }

  lemma OneMore2(x: Word)
    ensures Turned(Turned(x, 2), 1) == Turned(x, 3)
  {
  }

  lemma OneMore3(x: Word)
    ensures Turned(Turned(x, 3), 1) == Turned(x, 4)
  {
  }

  lemma OneMore4(x: Word)
    ensures Turned(Turned(x, 4), 1) == Turned(x, 5)
  {
  }

  lemma OneMore5(x: Word)
    ensures Turned(Turned(x, 5), 1) == Turned(x, 6)
  {
  }

  lemma OneMore6(x: Word)
    ensures Turned(Turned(x, 6), 1) == Turned(x, 7)
  {
  }

  lemma OneMore7(x: Word)
    ensures Turned(Turned(x, 7), 1) == Turned(x, 8)
  {
  }

  lemma OneMore8(x: Word)
    ensures Turned(Turned(x, 8), 1) == Turned(x, 9)
  {
  }

  lemma OneMore9(x: Word)
    ensures Turned(Turned(x, 9), 1) == Turned(x, 10)
  {
  }

  lemma OneMore10(x: Word)
    ensures Turned(Turned(x, 10), 1) == Turned(x, 11)
  {
  }

  lemma OneMore11(x: Word)
    ensures Turned(Turned(x, 11), 1) == Turned(x, 12)
  {
  }

  lemma OneMore12(x: Word)
    ensures Turned(Turned(x, 12), 1) == Turned(x, 13)
  {
  }

  lemma OneMore13(x: Word)
    ensures Turned(Turned(x, 13), 1) == Turned(x, 14)
  {
  }

  lemma OneMore14(x: Word)
    ensures Turned(Turned(x, 14), 1) == Turned(x, 15)
  {
  }

  lemma OneMore15(x: Word)
    ensures Turned(Turned(x, 15), 1) == Turned(x, 16)
  {
  }

  lemma OneMore16(x: Word)
    ensures Turned(Turned(x, 16), 1) == Turned(x, 17)
  {
  }

  lemma OneMore17(x: Word)
    ensures Turned(Turned(x, 17), 1) == Turned(x, 18)
  {
  }

  lemma OneMore18(x: Word)
    ensures Turned(Turned(x, 18), 1) == Turned(x, 19)
  {
  }

  lemma OneMore19(x: Word)
    ensures Turned(Turned(x, 19), 1) == Turned(x, 20)
  {
  }

  lemma OneMore20(x: Word)
    ensures Turned(Turned(x, 20), 1) == Turned(x, 21)
  {
  }

  lemma OneMore21(x: Word)
    ensures Turned(Turned(x, 21), 1) == Turned(x, 22)
  {
  }

  lemma OneMore22(x: Word)
    ensures Turned(Turned(x, 22), 1) == Turned(x, 23)
  {
  }

  lemma OneMore23(x: Word)
    ensures Turned(Turned(x, 23), 1) == Turned(x, 24)
  {
  }

  lemma OneMore24(x: Word)
    ensures Turned(Turned(x, 24), 1) == Turned(x, 25)
  {
  }

  lemma OneMore25(x: Word)
    ensures Turned(Turned(x, 25), 1) == Turned(x, 26)
  {
  }

  lemma OneMore26(x: Word)
    ensures Turned(Turned(x, 26), 1) == Turned(x, 27)
  {
  }

  lemma OneMore27(x: Word)
    ensures Turned(Turned(x, 27), 1) == Turned(x, 28)
  {
  }

  lemma OneMore28(x: Word)
    ensures Turned(Turned(x, 28), 1) == Turned(x, 29)
  {
  }

  lemma OneMore29(x: Word)
    ensures Turned(Turned(x, 29), 1) == Turned(x, 30)
  {
  }

  lemma OneMore30(x: Word)
    ensures Turned(Turned(x, 30), 1) == Turned(x, 31)
  {
  }

  lemma OneMore31(x: Word)
    ensures Turned(Turned(x, 31), 1) == Turned(x, 0)
  {
  }

  lemma NotTurned(x: Word)
    ensures Turned(x, 0) == x
  {
  }

  lemma {:induction false} TurnedFurther(x: Word, a: nat, b: nat)
    requires a < 32 && b < 32
    ensures Turned(Turned(x, a), b) == Turned(x, (a + b) % 32)
    decreases b
  {
    hide Turned;
    if b == 0 {
      NotTurned(Turned(x, a));
    } else {
      TurnedFurther(x, a, b - 1);
      OneMore(Turned(x, a), b - 1);
      OneMore(x, (a + b - 1) % 32);
    }
  }

  lemma TurnedBit(x: Word, a: nat, i: nat)
    requires a < 32 && i < 32
    ensures Bit(Turned(x, a), i) == Bit(x, (i + a) % 32)
  {
    hide Turned, Low;
    TurnedFurther(x, a, i);
  }

  lemma ChooseTurnedOnce(x: Word, y: Word, z: Word)
    ensures Turned(Choose(x, y, z), 1) == Choose(Turned(x, 1), Turned(y, 1), Turned(z, 1))
  {
  }

  lemma {:induction false} ChooseTurned(x: Word, y: Word, z: Word, i: nat)
    requires i < 32
    ensures Turned(Choose(x, y, z), i) == Choose(Turned(x, i), Turned(y, i), Turned(z, i))
    decreases i
  {
    hide Choose, Turned;
    if i == 0 {
      NotTurned(Choose(x, y, z));
      NotTurned(x);
      NotTurned(y);
      NotTurned(z);
    } else {
      ChooseTurned(x, y, z, i - 1);
      ChooseTurnedOnce(Turned(x, i - 1), Turned(y, i - 1), Turned(z, i - 1));
      OneMore(Choose(x, y, z), i - 1);
      OneMore(x, i - 1);
      OneMore(y, i - 1);
      OneMore(z, i - 1);
    }
  }

  lemma ChooseLow(x: Word, y: Word, z: Word)
    ensures Low(Choose(x, y, z)) <==> if Low(x) then Low(y) else Low(z)
  {
  }

  lemma ChooseBit(x: Word, y: Word, z: Word, i: nat)
    requires i < 32
    ensures Bit(Choose(x, y, z), i) <==> if Bit(x, i) then Bit(y, i) else Bit(z, i)
  {
    hide Choose, Turned, Low;
    ChooseTurned(x, y, z, i);
    ChooseLow(Turned(x, i), Turned(y, i), Turned(z, i));
  }

  lemma MajorityTurnedOnce(x: Word, y: Word, z: Word)
    ensures Turned(Majority(x, y, z), 1) == Majority(Turned(x, 1), Turned(y, 1), Turned(z, 1))
  {
  }

  lemma {:induction false} MajorityTurned(x: Word, y: Word, z: Word, i: nat)
    requires i < 32
    ensures Turned(Majority(x, y, z), i) == Majority(Turned(x, i), Turned(y, i), Turned(z, i))
    decreases i
  {
    hide Majority, Turned;
    if i == 0 {
      NotTurned(Majority(x, y, z));
      NotTurned(x);
      NotTurned(y);
      NotTurned(z);
    } else {
      MajorityTurned(x, y, z, i - 1);
      MajorityTurnedOnce(Turned(x, i - 1), Turned(y, i - 1), Turned(z, i - 1));
      OneMore(Majority(x, y, z), i - 1);
      OneMore(x, i - 1);
      OneMore(y, i - 1);
      OneMore(z, i - 1);
    }
  }

  lemma MajorityLow(x: Word, y: Word, z: Word)
    ensures Low(Majority(x, y, z)) <==> (Low(x) && Low(y)) || (Low(x) && Low(z)) || (Low(y) && Low(z))
  {
  }

  lemma MajorityBit(x: Word, y: Word, z: Word, i: nat)
    requires i < 32
    ensures Bit(Majority(x, y, z), i) <==>
              (Bit(x, i) && Bit(y, i)) || (Bit(x, i) && Bit(z, i)) || (Bit(y, i) && Bit(z, i))
  {
    hide Majority, Turned, Low;
    MajorityTurned(x, y, z, i);
    MajorityLow(Turned(x, i), Turned(y, i), Turned(z, i));
  }

  function Parity(x: Word, y: Word, z: Word): Word {
    x ^ y ^ z
  }

  lemma ParityTurnedOnce(x: Word, y: Word, z: Word)
    ensures Turned(Parity(x, y, z), 1) == Parity(Turned(x, 1), Turned(y, 1), Turned(z, 1))
  {
  }

  lemma {:induction false} ParityTurned(x: Word, y: Word, z: Word, i: nat)
    requires i < 32
    ensures Turned(Parity(x, y, z), i) == Parity(Turned(x, i), Turned(y, i), Turned(z, i))
    decreases i
  {
    hide Parity, Turned;
    if i == 0 {
      NotTurned(Parity(x, y, z));
      NotTurned(x);
      NotTurned(y);
      NotTurned(z);
    } else {
      ParityTurned(x, y, z, i - 1);
      ParityTurnedOnce(Turned(x, i - 1), Turned(y, i - 1), Turned(z, i - 1));
      OneMore(Parity(x, y, z), i - 1);
      OneMore(x, i - 1);
      OneMore(y, i - 1);
      OneMore(z, i - 1);
    }
  }

  lemma ParityLow(x: Word, y: Word, z: Word)
    ensures Low(Parity(x, y, z)) <==> Odd(Low(x), Low(y), Low(z))
  {
  }

  lemma ParityBit(x: Word, y: Word, z: Word, i: nat)
    requires i < 32
    ensures Bit(Parity(x, y, z), i) <==> Odd(Bit(x, i), Bit(y, i), Bit(z, i))
  {
    hide Parity, Turned, Low;
    ParityTurned(x, y, z, i);
    ParityLow(Turned(x, i), Turned(y, i), Turned(z, i));
  }

  function Both(x: Word, y: Word): Word {
    x & y
  }

  lemma BothTurnedOnce(x: Word, y: Word)
    ensures Turned(Both(x, y), 1) == Both(Turned(x, 1), Turned(y, 1))
  {
  }

  lemma {:induction false} BothTurned(x: Word, y: Word, i: nat)
    requires i < 32
    ensures Turned(Both(x, y), i) == Both(Turned(x, i), Turned(y, i))
    decreases i
  {
    hide Both, Turned;
    if i == 0 {
      NotTurned(Both(x, y));
      NotTurned(x);
      NotTurned(y);
    } else {
      BothTurned(x, y, i - 1);
      BothTurnedOnce(Turned(x, i - 1), Turned(y, i - 1));
      OneMore(Both(x, y), i - 1);
      OneMore(x, i - 1);
      OneMore(y, i - 1);
    }
  }

  lemma BothLow(x: Word, y: Word)
    ensures Low(Both(x, y)) <==> Low(x) && Low(y)
  {
  }

  lemma BothBit(x: Word, y: Word, i: nat)
    requires i < 32
    ensures Bit(Both(x, y), i) <==> Bit(x, i) && Bit(y, i)
  {
    hide Both, Turned, Low;
    BothTurned(x, y, i);
    BothLow(Turned(x, i), Turned(y, i));
  }

  /** The word shifted right, the highest places left empty. */
  function Shifted(x: Word, n: nat): Word
    requires n == 3 || n == 10
  {
    if n == 3 then x >> 3 else x >> 10
  }

  function Ones(n: nat): Word
    requires n == 3 || n == 10
  {
    if n == 3 then 0x1fff_ffff else 0x003f_ffff
  }

  lemma OnesBit(n: nat, i: nat)
    requires (n == 3 || n == 10) && i < 32
    ensures Bit(Ones(n), i) <==> i + n < 32
  {
    match i case 0 => case 1 => case 2 => case 3 => case 4 => case 5 => case 6 => case 7 => case 8 => case 9 =>
      case 10 => case 11 => case 12 => case 13 => case 14 => case 15 => case 16 => case 17 => case 18 => case 19 =>
      case 20 => case 21 => case 22 => case 23 => case 24 => case 25 => case 26 => case 27 => case 28 => case 29 =>
      case 30 => case _ =>
  }

  lemma ShiftedIs(x: Word, n: nat)
    requires n == 3 || n == 10
    ensures Shifted(x, n) == Both(Turned(x, n), Ones(n))
  {
    hide Turned, Both, Shifted, Ones;
    TurnedBy3(x);
    TurnedBy10(x);
    ShiftedBy3(x);
    ShiftedBy10(x);
  }

  lemma ShiftedIsShift3(x: Word)
    ensures Shifted(x, 3) == x >> 3
  {
  }

  lemma ShiftedIsShift10(x: Word)
    ensures Shifted(x, 10) == x >> 10
  {
  }

  lemma ShiftedBy3(x: Word)
    ensures Shifted(x, 3) == Both(x.RotateRight(3), Ones(3))
  {
  }

  lemma ShiftedBy10(x: Word)
    ensures Shifted(x, 10) == Both(x.RotateRight(10), Ones(10))
  {
  }

  lemma ShiftedBit(x: Word, n: nat, i: nat)
    requires (n == 3 || n == 10) && i < 32
    ensures Bit(Shifted(x, n), i) <==> i + n < 32 && Bit(x, (i + n) % 32)
  {
    hide Turned, Both, Shifted, Ones, Bit;
    ShiftedIs(x, n);
    BothBit(Turned(x, n), Ones(n), i);
    OnesBit(n, i);
    TurnedBit(x, n, i);
  }

  lemma BigSigma0Turns(x: Word)
    ensures BigSigma0(x) == Parity(x.RotateRight(2), x.RotateRight(13), x.RotateRight(22))
  {
  }

  lemma BigSigma0Is(x: Word)
    ensures BigSigma0(x) == Parity(Turned(x, 2), Turned(x, 13), Turned(x, 22))
  {
    hide Turned, Parity, Shifted, BigSigma0;
    TurnedBy2(x);
    TurnedBy13(x);
    TurnedBy22(x);
    BigSigma0Turns(x);
  }

  lemma BigSigma0Bit(x: Word, i: nat)
    requires i < 32
    ensures Bit(BigSigma0(x), i) == Odd(Bit(x, (i + 2) % 32), Bit(x, (i + 13) % 32), Bit(x, (i + 22) % 32))
  {
    hide Bit, Odd, Parity, Turned, Shifted, BigSigma0;
    BigSigma0Is(x);
    ParityBit(Turned(x, 2), Turned(x, 13), Turned(x, 22), i);
    TurnedBit(x, 2, i);
    TurnedBit(x, 13, i);
    TurnedBit(x, 22, i);
  }

  lemma BigSigma1Turns(x: Word)
    ensures BigSigma1(x) == Parity(x.RotateRight(6), x.RotateRight(11), x.RotateRight(25))
  {
  }

  lemma BigSigma1Is(x: Word)
    ensures BigSigma1(x) == Parity(Turned(x, 6), Turned(x, 11), Turned(x, 25))
  {
    hide Turned, Parity, Shifted, BigSigma1;
    TurnedBy6(x);
    TurnedBy11(x);
    TurnedBy25(x);
    BigSigma1Turns(x);
  }

  lemma BigSigma1Bit(x: Word, i: nat)
    requires i < 32
    ensures Bit(BigSigma1(x), i) == Odd(Bit(x, (i + 6) % 32), Bit(x, (i + 11) % 32), Bit(x, (i + 25) % 32))
  {
    hide Bit, Odd, Parity, Turned, Shifted, BigSigma1;
    BigSigma1Is(x);
    ParityBit(Turned(x, 6), Turned(x, 11), Turned(x, 25), i);
    TurnedBit(x, 6, i);
    TurnedBit(x, 11, i);
    TurnedBit(x, 25, i);
  }

  lemma SmallSigma0Turns(x: Word)
    ensures SmallSigma0(x) == Parity(x.RotateRight(7), x.RotateRight(18), x >> 3)
  {
  }

  lemma SmallSigma0Is(x: Word)
    ensures SmallSigma0(x) == Parity(Turned(x, 7), Turned(x, 18), Shifted(x, 3))
  {
    hide Turned, Parity, Shifted, SmallSigma0;
    TurnedBy7(x);
    TurnedBy18(x);
    ShiftedIsShift3(x);
    SmallSigma0Turns(x);
  }

  lemma SmallSigma0Bit(x: Word, i: nat)
    requires i < 32
    ensures Bit(SmallSigma0(x), i)
            == Odd(Bit(x, (i + 7) % 32), Bit(x, (i + 18) % 32), i + 3 < 32 && Bit(x, (i + 3) % 32))
  {
    hide Bit, Odd, Parity, Turned, Shifted, SmallSigma0;
    SmallSigma0Is(x);
    ParityBit(Turned(x, 7), Turned(x, 18), Shifted(x, 3), i);
    TurnedBit(x, 7, i);
    TurnedBit(x, 18, i);
    ShiftedBit(x, 3, i);
  }

  lemma SmallSigma1Turns(x: Word)
    ensures SmallSigma1(x) == Parity(x.RotateRight(17), x.RotateRight(19), x >> 10)
  {
  }

  lemma SmallSigma1Is(x: Word)
    ensures SmallSigma1(x) == Parity(Turned(x, 17), Turned(x, 19), Shifted(x, 10))
  {
    hide Turned, Parity, Shifted, SmallSigma1;
    TurnedBy17(x);
    TurnedBy19(x);
    ShiftedIsShift10(x);
    SmallSigma1Turns(x);
  }

  lemma SmallSigma1Bit(x: Word, i: nat)
    requires i < 32
    ensures Bit(SmallSigma1(x), i)
            == Odd(Bit(x, (i + 17) % 32), Bit(x, (i + 19) % 32), i + 10 < 32 && Bit(x, (i + 10) % 32))
  {
    hide Bit, Odd, Parity, Turned, Shifted, SmallSigma1;
    SmallSigma1Is(x);
    ParityBit(Turned(x, 17), Turned(x, 19), Shifted(x, 10), i);
    TurnedBit(x, 17, i);
    TurnedBit(x, 19, i);
    ShiftedBit(x, 10, i);
  }

  // ---------- words as numbers ----------

  predicate Beside(w: Word, a: bv8, b: bv8, c: bv8, d: bv8) {
    w == ((a as Word) << 24) | ((b as Word) << 16) | ((c as Word) << 8) | (d as Word)
  }

  lemma BesideAsNumber(w: Word, a: bv8, b: bv8, c: bv8, d: bv8)
    requires Beside(w, a, b, c, d)
    ensures w as int == 0x100_0000 * (a as int) + 0x1_0000 * (b as int) + 0x100 * (c as int) + (d as int)
  {
  }

  lemma MessageWordIs(b0: Byte, b1: Byte, b2: Byte, b3: Byte)
    ensures Beside(MessageWord(b0, b1, b2, b3), b0 as bv8, b1 as bv8, b2 as bv8, b3 as bv8)
  {
  }

  lemma SplitWord(w: Word)
    ensures Beside(w, (w >> 24) as bv8, ((w >> 16) & 0xff) as bv8, ((w >> 8) & 0xff) as bv8, (w & 0xff) as bv8)
  {
  }

  /** A word of the message is read from its four bytes, the highest first. */
  lemma MessageWordAsNumber(b: Bytes)
    requires |b| == 4
    ensures MessageWord(b[0], b[1], b[2], b[3]) as int == FromLittleEndian([b[3], b[2], b[1], b[0]])
  {
    hide FromLittleEndian, MessageWord, Beside;
    FourBytes([b[3], b[2], b[1], b[0]]);
    ByteRoundTrip(b[0]);
    ByteRoundTrip(b[1]);
    ByteRoundTrip(b[2]);
    ByteRoundTrip(b[3]);
    MessageWordIs(b[0], b[1], b[2], b[3]);
    BesideAsNumber(MessageWord(b[0], b[1], b[2], b[3]), b[0] as bv8, b[1] as bv8, b[2] as bv8, b[3] as bv8);
  }

  /** A word of the digest is written the same way. */
  lemma WordBytesAsNumber(w: Word)
    ensures var b := WordBytes(w); w as int == FromLittleEndian([b[3], b[2], b[1], b[0]])
  {
    hide FromLittleEndian, Beside;
    var b := WordBytes(w);
    FourBytes([b[3], b[2], b[1], b[0]]);
    SplitWord(w);
    BesideAsNumber(w, (w >> 24) as bv8, ((w >> 16) & 0xff) as bv8, ((w >> 8) & 0xff) as bv8, (w & 0xff) as bv8);
  }
}
