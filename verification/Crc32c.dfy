/**
 * The table-driven CRC32C, proved equal to the remainder of a polynomial long
 * division over GF(2) as section 12.1 of RFC 3720 defines it, and proved to
 * detect every corruption confined to four consecutive bytes.
 */
module Crc32c {
  import opened Bytes

  const POLYNOMIAL: bv32 := 0x82f63b78
  const INITIAL: bv32 := 0xffffffff

  // ---------- the code ----------

  function Xor(x: bv32, y: bv32): bv32 {
    x ^ y
  }

  function Half(x: bv32): bv32 {
    x >> 1
  }

  function Mask(x: bv32): bv32 {
    POLYNOMIAL & (0 - (x & 1))
  }

  /** One reflected division step: the inner statement of the table construction. */
  function Step(x: bv32): bv32 {
    Xor(Half(x), Mask(x))
  }

  function Steps(n: nat, x: bv32): bv32 {
    if n == 0 then x else Step(Steps(n - 1, x))
  }

  function Word(byte: Byte): bv32 {
    (byte as bv8) as bv32
  }

  /** What one message byte does to the register. */
  function UpdateByte(register: bv32, byte: Byte): bv32 {
    Steps(8, Xor(register, Word(byte)))
  }

  function Update(register: bv32, bytes: Bytes): bv32
    decreases |bytes|
  {
    if |bytes| == 0 then register else Update(UpdateByte(register, bytes[0]), bytes[1..])
  }

  function Crc(bytes: Bytes): bv32 {
    !Update(INITIAL, bytes)
  }

  method MakeTable() returns (table: array<bv32>)
    ensures fresh(table) && table.Length == 256
    ensures forall e: Byte :: table[e] == Steps(8, Word(e))
  {
    table := new bv32[256];
    for entry := 0 to 256
      invariant forall e: Byte :: e < entry ==> table[e] == Steps(8, Word(e))
    {
      var value := entry as bv32;
      for bit := 0 to 8
        invariant value == Steps(bit, Word(entry))
      {
        value := (value >> 1) ^ (POLYNOMIAL & (0 - (value & 1)));
      }
      table[entry] := value;
    }
  }

  method Checksum(bytes: Bytes) returns (checksum: bv32)
    ensures checksum == Crc(bytes)
    ensures RegisterBits(32, checksum) == ChecksumBits(bytes)
  {
    var table := MakeTable();
    checksum := INITIAL;
    for i := 0 to |bytes|
      modifies {}
      invariant Update(INITIAL, bytes) == Update(checksum, bytes[i..])
    {
      hide Xor, Half, HalfEight, Word, LowByte, Step;
      TableLookup(checksum, bytes[i]);
      var index := LowByte(Xor(checksum, Word(bytes[i])));
      checksum := Xor(table[index], HalfEight(checksum));
      assert bytes[i..][1..] == bytes[i + 1..];
    }
    checksum := !checksum;
    CrcIsRemainder(bytes);
  }

  function LowByte(x: bv32): Byte {
    Octet(x) as int
  }

  function Octet(x: bv32): bv8 {
    (x & 0xff) as bv8
  }

  lemma OctetAsWord(x: bv32)
    ensures Octet(x) as bv32 == x & 0xff
  {
  }

  lemma WordOfLowByte(x: bv32)
    ensures Word(LowByte(x)) == x & 0xff
  {
    hide Octet;
    OctetAsWord(x);
    OctetRoundTrip(Octet(x));
  }

  // ---------- exclusive or, shifts and the step ----------

  lemma XorAssociative(a: bv32, b: bv32, c: bv32)
    ensures Xor(Xor(a, b), c) == Xor(a, Xor(b, c))
  {
  }

  lemma XorCommutes(a: bv32, b: bv32)
    ensures Xor(a, b) == Xor(b, a)
  {
  }

  lemma XorZero(a: bv32)
    ensures Xor(a, 0) == a && Xor(0, a) == a && Xor(a, a) == 0
  {
  }

  lemma SwapLast(a: bv32, b: bv32, c: bv32)
    ensures Xor(Xor(a, b), c) == Xor(Xor(a, c), b)
  {
    hide Xor;
    XorAssociative(a, b, c);
    XorAssociative(a, c, b);
    XorCommutes(b, c);
  }

  lemma Interchange(a: bv32, b: bv32, c: bv32, d: bv32)
    ensures Xor(Xor(a, b), Xor(c, d)) == Xor(Xor(a, c), Xor(b, d))
  {
    hide Xor;
    XorAssociative(Xor(a, b), c, d);
    SwapLast(a, b, c);
    XorAssociative(Xor(a, c), b, d);
  }

  lemma HalfXor(x: bv32, y: bv32)
    ensures Half(Xor(x, y)) == Xor(Half(x), Half(y))
  {
  }

  function Low(x: bv32): bool {
    x & 1 == 1
  }

  lemma LowXor(x: bv32, y: bv32)
    ensures Low(Xor(x, y)) == (Low(x) != Low(y))
  {
  }

  lemma MaskCases(x: bv32)
    ensures Mask(x) == if Low(x) then POLYNOMIAL else 0
  {
  }

  lemma MaskXor(x: bv32, y: bv32)
    ensures Mask(Xor(x, y)) == Xor(Mask(x), Mask(y))
  {
    hide Mask, Low, Xor;
    LowXor(x, y);
    MaskCases(x);
    MaskCases(y);
    MaskCases(Xor(x, y));
    XorZero(POLYNOMIAL);
    XorZero(0);
  }

  lemma StepXor(x: bv32, y: bv32)
    ensures Step(Xor(x, y)) == Xor(Step(x), Step(y))
  {
    hide Xor, Half, Mask;
    HalfXor(x, y);
    MaskXor(x, y);
    Interchange(Half(x), Mask(x), Half(y), Mask(y));
  }

  lemma {:induction false} StepsXor(n: nat, x: bv32, y: bv32)
    ensures Steps(n, Xor(x, y)) == Xor(Steps(n, x), Steps(n, y))
  {
    hide Xor, Step;
    if n > 0 {
      StepsXor(n - 1, x, y);
      StepXor(Steps(n - 1, x), Steps(n - 1, y));
    }
  }

  lemma {:induction false} StepsFromFront(n: nat, x: bv32)
    ensures Steps(n + 1, x) == Steps(n, Step(x))
  {
    hide Step;
    if n > 0 {
      StepsFromFront(n - 1, x);
    }
  }

  /** The top coefficient of the polynomial makes the step reversible. */
  lemma StepInjective(x: bv32, y: bv32)
    requires Step(x) == Step(y)
    ensures x == y
  {
  }

  lemma {:induction false} StepsInjective(n: nat, x: bv32, y: bv32)
    requires Steps(n, x) == Steps(n, y)
    ensures x == y
  {
    hide Step;
    if n > 0 {
      StepInjective(Steps(n - 1, x), Steps(n - 1, y));
      StepsInjective(n - 1, x, y);
    }
  }

  /** Shifting right by one place `n` times. */
  function Halves(n: nat, x: bv32): bv32 {
    if n == 0 then x else Halves(n - 1, Half(x))
  }

  function HalfEight(x: bv32): bv32 {
    x >> 8
  }

  lemma EightHalves(x: bv32)
    ensures Half(Half(Half(Half(Half(Half(Half(Half(x)))))))) == HalfEight(x)
  {
  }

  lemma HalvesEight(x: bv32)
    ensures Halves(8, x) == HalfEight(x)
  {
    hide Half, HalfEight;
    HalvesSplit(4, 4, x);
    HalvesFour(x);
    HalvesFour(Halves(4, x));
    EightHalves(x);
  }

  lemma HalvesFour(x: bv32)
    ensures Halves(4, x) == Half(Half(Half(Half(x))))
  {
    hide Half;
    assert Halves(4, x) == Halves(3, Half(x));
    assert Halves(3, Half(x)) == Halves(2, Half(Half(x)));
    assert Halves(2, Half(Half(x))) == Halves(1, Half(Half(Half(x))));
    assert Halves(1, Half(Half(Half(x)))) == Halves(0, Half(Half(Half(Half(x)))));
  }

  lemma {:induction false} HalvesSplit(m: nat, n: nat, x: bv32)
    ensures Halves(m + n, x) == Halves(n, Halves(m, x))
  {
    hide Half;
    if m > 0 {
      HalvesSplit(m - 1, n, Half(x));
    }
  }

  lemma HalvesAll(x: bv32)
    ensures Halves(32, x) == 0
  {
    hide Half, HalfEight;
    HalvesSplit(16, 16, x);
    HalvesSixteen(x);
    HalvesSixteen(Halves(16, x));
    FourEighths(x);
  }

  lemma FourEighths(x: bv32)
    ensures HalfEight(HalfEight(HalfEight(HalfEight(x)))) == 0
  {
  }

  lemma HalvesSixteen(x: bv32)
    ensures Halves(16, x) == HalfEight(HalfEight(x))
  {
    hide Half, HalfEight;
    HalvesSplit(8, 8, x);
    HalvesEight(x);
    HalvesEight(HalfEight(x));
  }

  // ---------- the table ----------

  /** Low zero bits leave the register without touching the polynomial. */
  lemma StepEven(x: bv32, mask: bv32)
    requires x & ((mask << 1) | 1) == 0
    ensures Step(x) == Half(x)
    ensures Half(x) & mask == 0
  {
  }

  function LowMask(n: nat): bv32 {
    if n == 0 then 0 else (LowMask(n - 1) << 1) | 1
  }

  lemma {:induction false} StepsEven(n: nat, x: bv32)
    requires x & LowMask(n) == 0
    ensures Steps(n, x) == Halves(n, x)
  {
    hide Step, Half;
    if n > 0 {
      StepEven(x, LowMask(n - 1));
      StepsEven(n - 1, Half(x));
      StepsFromFront(n - 1, x);
    }
  }

  lemma StepsOfHighBits(x: bv32)
    requires x & 0xff == 0
    ensures Steps(8, x) == HalfEight(x)
  {
    hide Half, HalfEight, Step;
    assert LowMask(8) == 0xff;
    StepsEven(8, x);
    HalvesEight(x);
  }

  lemma SplitLowByte(x: bv32)
    ensures x == Xor(x & 0xff, x & 0xffffff00)
    ensures (x & 0xffffff00) & 0xff == 0
    ensures HalfEight(x & 0xffffff00) == HalfEight(x)
  {
  }

  /** Eight steps on x are eight steps on its low byte, XORed with x shifted by eight. */
  lemma EightSteps(x: bv32)
    ensures Steps(8, x) == Xor(Steps(8, Word(LowByte(x))), HalfEight(x))
  {
    SplitLowByte(x);
    WordOfLowByte(x);
    hide Xor, HalfEight, Step, Word, LowByte;
    StepsXor(8, x & 0xff, x & 0xffffff00);
    StepsOfHighBits(x & 0xffffff00);
  }

  lemma WordVanishes(register: bv32, byte: Byte)
    ensures HalfEight(Xor(register, Word(byte))) == HalfEight(register)
  {
  }

  /** The table entry stands for eight steps of the register with the byte folded in. */
  lemma TableLookup(register: bv32, byte: Byte)
    ensures UpdateByte(register, byte)
         == Xor(Steps(8, Word(LowByte(Xor(register, Word(byte))))), HalfEight(register))
  {
    hide Xor, HalfEight, Step, Word, LowByte;
    EightSteps(Xor(register, Word(byte)));
    WordVanishes(register, byte);
  }

  // ---------- the register as coefficients, lowest bit first ----------

  function RegisterBits(n: nat, x: bv32): (bits: seq<bool>)
    ensures |bits| == n
  {
    if n == 0 then [] else [Low(x)] + RegisterBits(n - 1, Half(x))
  }

  function XorBits(a: seq<bool>, b: seq<bool>): (bits: seq<bool>)
    requires |a| == |b|
    ensures |bits| == |a|
  {
    seq(|a|, i requires 0 <= i < |a| => a[i] != b[i])
  }

  lemma {:induction false} RegisterBitsXor(n: nat, x: bv32, y: bv32)
    ensures RegisterBits(n, Xor(x, y)) == XorBits(RegisterBits(n, x), RegisterBits(n, y))
  {
    hide Xor, Half, Low;
    if n > 0 {
      LowXor(x, y);
      HalfXor(x, y);
      RegisterBitsXor(n - 1, Half(x), Half(y));
    }
  }

  lemma RegisterBitsFirst(n: nat, x: bv32)
    ensures RegisterBits(n + 1, x) == [Low(x)] + RegisterBits(n, Half(x))
  {
    hide Half, Low;
  }

  lemma LowOfZero()
    ensures !Low(0)
  {
  }

  lemma {:induction false} RegisterBitsLast(n: nat, x: bv32)
    ensures RegisterBits(n + 1, x) == RegisterBits(n, x) + [Low(Halves(n, x))]
  {
    hide Half, Low;
    if n == 0 {
      assert RegisterBits(1, x) == [Low(x)] + RegisterBits(0, Half(x));
    } else {
      RegisterBitsLast(n - 1, Half(x));
      assert RegisterBits(n + 1, x) == [Low(x)] + RegisterBits(n, Half(x));
    }
  }

  /** Shifting the register drops its first coefficient. */
  lemma RegisterBitsHalf(x: bv32)
    ensures RegisterBits(32, Half(x)) == RegisterBits(32, x)[1..] + [false]
  {
    hide Half, Low, RegisterBits;
    RegisterBitsLast(32, x);
    HalvesAll(x);
    LowOfZero();
    RegisterBitsFirst(32, x);
    assert RegisterBits(33, x)[1..] == RegisterBits(32, Half(x));
    assert (RegisterBits(32, x) + [false])[1..] == RegisterBits(32, x)[1..] + [false];
  }

  function FourBits(x: bv32): seq<bool> {
    [Low(x), Low(Half(x)), Low(Half(Half(x))), Low(Half(Half(Half(x))))]
  }

  function EightBits(x: bv32): seq<bool> {
    FourBits(x) + FourBits(Half(Half(Half(Half(x)))))
  }

  lemma RegisterBitsTwo(n: nat, x: bv32)
    ensures RegisterBits(n + 2, x) == [Low(x), Low(Half(x))] + RegisterBits(n, Half(Half(x)))
  {
    hide Half, Low;
    assert RegisterBits(n + 1, Half(x)) == [Low(Half(x))] + RegisterBits(n, Half(Half(x)));
  }

  lemma RegisterBitsFour(n: nat, x: bv32)
    ensures RegisterBits(n + 4, x) == FourBits(x) + RegisterBits(n, Half(Half(Half(Half(x)))))
  {
    hide Half, Low;
    RegisterBitsTwo(n + 2, x);
    RegisterBitsTwo(n, Half(Half(x)));
  }

  lemma RegisterBitsEight(n: nat, x: bv32)
    ensures RegisterBits(n + 8, x) == EightBits(x) + RegisterBits(n, HalfEight(x))
  {
    hide Half, Low, FourBits, HalfEight;
    RegisterBitsFour(n + 4, x);
    RegisterBitsFour(n, Half(Half(Half(Half(x)))));
    EightHalves(x);
  }

  lemma NoBits(x: bv32)
    ensures RegisterBits(0, x) == []
  {
  }

  lemma Associative(a: seq<bool>, b: seq<bool>, c: seq<bool>, d: seq<bool>)
    ensures a + (b + (c + (d + []))) == a + b + c + d
  {
  }

  lemma RegisterBitsBytes(x: bv32)
    ensures RegisterBits(32, x) == EightBits(x) + EightBits(HalfEight(x))
      + EightBits(HalfEight(HalfEight(x))) + EightBits(HalfEight(HalfEight(HalfEight(x))))
  {
    hide EightBits, HalfEight, Half, Low, RegisterBits;
    var second, third, fourth := HalfEight(x), HalfEight(HalfEight(x)), HalfEight(HalfEight(HalfEight(x)));
    RegisterBitsEight(24, x);
    RegisterBitsEight(16, second);
    RegisterBitsEight(8, third);
    RegisterBitsEight(0, fourth);
    NoBits(HalfEight(fourth));
    Associative(EightBits(x), EightBits(second), EightBits(third), EightBits(fourth));
  }

  lemma RegisterBitsOfPolynomial()
    ensures RegisterBits(32, POLYNOMIAL) == Generator()
  {
    RegisterBitsBytes(POLYNOMIAL);
  }

  lemma RegisterBitsOfInitial()
    ensures RegisterBits(32, INITIAL) == Ones(32)
  {
    RegisterBitsBytes(INITIAL);
  }

  // ---------- section 12.1 of RFC 3720 ----------

  function Zeros(n: nat): seq<bool> {
    seq(n, _ => false)
  }

  function Ones(n: nat): seq<bool> {
    seq(n, _ => true)
  }

  /** x^28 + x^27 + x^26 + x^25 + x^23 + x^22 + x^20 + x^19 + x^18 + x^14 + x^13
      + x^11 + x^10 + x^9 + x^8 + x^6 + 1, the generator below its leading x^32;
      highest power first. */
  function Generator(): (g: seq<bool>)
    ensures |g| == 32
  {
    seq(32, i requires 0 <= i < 32 =>
      31 - i in {28, 27, 26, 25, 23, 22, 20, 19, 18, 14, 13, 11, 10, 9, 8, 6, 0})
  }

  /** Remainder of the polynomial with coefficients `bits`, highest power first, modulo the generator. */
  function Remainder(bits: seq<bool>): (r: seq<bool>)
    requires |bits| >= 32
    ensures |r| == 32
    decreases |bits|
  {
    if |bits| == 32 then bits
    else if bits[0] then Remainder(XorBits(bits[1..33], Generator()) + bits[33..])
    else Remainder(bits[1..])
  }

  /** The message's coefficients: bytes in order, the low bit of each byte first. */
  function MessageBits(bytes: Bytes): seq<bool> {
    if |bytes| == 0 then [] else RegisterBits(8, Word(bytes[0])) + MessageBits(bytes[1..])
  }

  /** `bits` with its first 32 coefficients combined with `register`. */
  function Overlay(register: seq<bool>, bits: seq<bool>): (r: seq<bool>)
    requires |register| == 32 <= |bits|
    ensures |r| == |bits|
  {
    XorBits(register, bits[..32]) + bits[32..]
  }

  /** The message times x^32, its first 32 coefficients complemented, divided; the remainder complemented. */
  function ChecksumBits(bytes: Bytes): seq<bool> {
    XorBits(Ones(32), Remainder(Overlay(Ones(32), MessageBits(bytes) + Zeros(32))))
  }

  // ---------- the register computes the remainder ----------

  /** Feeding one message bit: it is combined with the coefficient about to be divided out. */
  function FeedBit(register: bv32, bit: bool): bv32 {
    Step(Xor(register, if bit then 1 else 0))
  }

  function FeedBits(register: bv32, bits: seq<bool>): bv32
    decreases |bits|
  {
    if |bits| == 0 then register else FeedBits(FeedBit(register, bits[0]), bits[1..])
  }

  lemma BitWord(bit: bool)
    ensures Low(if bit then 1 else 0) == bit
    ensures Half(if bit then 1 else 0) == 0
  {
  }

  /** Folding a whole word in before stepping is feeding its low bit and keeping the rest. */
  lemma StepFeeds(register: bv32, x: bv32)
    ensures Step(Xor(register, x)) == Xor(FeedBit(register, Low(x)), Half(x))
  {
    hide Xor, Half, Low, Mask;
    var bit := if Low(x) then 1 else 0;
    BitWord(Low(x));
    HalfXor(register, x);
    HalfXor(register, bit);
    XorZero(Half(register));
    LowXor(register, x);
    LowXor(register, bit);
    MaskCases(Xor(register, x));
    MaskCases(Xor(register, bit));
    SwapLast(Half(register), Half(x), Mask(Xor(register, x)));
  }

  lemma {:induction false} StepsFeed(n: nat, register: bv32, x: bv32)
    ensures Steps(n, Xor(register, x)) == Xor(FeedBits(register, RegisterBits(n, x)), Halves(n, x))
  {
    hide Xor, Half, Low, Step, FeedBit;
    if n > 0 {
      StepsFromFront(n - 1, Xor(register, x));
      StepFeeds(register, x);
      StepsFeed(n - 1, FeedBit(register, Low(x)), Half(x));
      assert RegisterBits(n, x)[1..] == RegisterBits(n - 1, Half(x));
    }
  }

  lemma WordIsOneByte(byte: Byte)
    ensures HalfEight(Word(byte)) == 0
  {
  }

  lemma {:induction false} FeedBitsConcat(register: bv32, a: seq<bool>, b: seq<bool>)
    ensures FeedBits(register, a + b) == FeedBits(FeedBits(register, a), b)
    decreases |a|
  {
    hide FeedBit;
    if |a| == 0 {
      assert a + b == b;
    } else {
      FeedBitsConcat(FeedBit(register, a[0]), a[1..], b);
      assert (a + b)[1..] == a[1..] + b;
    }
  }

  lemma {:induction false} UpdateFeeds(register: bv32, bytes: Bytes)
    ensures Update(register, bytes) == FeedBits(register, MessageBits(bytes))
    decreases |bytes|
  {
    hide Xor, Half, Low, Step, FeedBit, Word, HalfEight;
    if |bytes| > 0 {
      var x := Word(bytes[0]);
      StepsFeed(8, register, x);
      HalvesEight(x);
      WordIsOneByte(bytes[0]);
      XorZero(FeedBits(register, RegisterBits(8, x)));
      UpdateFeeds(UpdateByte(register, bytes[0]), bytes[1..]);
      FeedBitsConcat(register, RegisterBits(8, x), MessageBits(bytes[1..]));
    }
  }

  /** One fed bit moves the register's coefficients as one step of the long division. */
  lemma FeedBitDivides(register: bv32, bit: bool)
    ensures RegisterBits(32, FeedBit(register, bit))
         == var shifted := RegisterBits(32, register)[1..] + [false];
            if RegisterBits(32, register)[0] != bit then XorBits(shifted, Generator()) else shifted
  {
    hide Xor, Half, Low, Mask, Generator, Zeros;
    var word := if bit then 1 else 0;
    var x := Xor(register, word);
    BitWord(bit);
    HalfXor(register, word);
    XorZero(Half(register));
    LowXor(register, word);
    MaskCases(x);
    RegisterBitsHalf(register);
    RegisterBitsXor(32, Half(x), Mask(x));
    RegisterBitsOfPolynomial();
    XorZero(Half(register));
  }

  /** The invariant of the division: the register is what remains to be combined with the unread coefficients. */
  lemma {:induction false} FeedBitsDivide(register: bv32, bits: seq<bool>)
    ensures RegisterBits(32, FeedBits(register, bits))
         == Remainder(Overlay(RegisterBits(32, register), bits + Zeros(32)))
    decreases |bits|
  {
    hide FeedBit, Generator, RegisterBits, Overlay, XorBits, Remainder;
    var w := RegisterBits(32, register);
    var t := bits + Zeros(32);
    if |bits| == 0 {
      assert t == Zeros(32);
      NothingToDivide(w);
    } else {
      var next := FeedBit(register, bits[0]);
      FeedBitDivides(register, bits[0]);
      FeedBitsDivide(next, bits[1..]);
      assert t[1..] == bits[1..] + Zeros(32);
      DivisionStep(w, t, RegisterBits(32, next));
    }
  }

  lemma NothingToDivide(w: seq<bool>)
    requires |w| == 32
    ensures Remainder(Overlay(w, Zeros(32))) == w
  {
    assert Overlay(w, Zeros(32)) == w;
  }

  lemma DivisionStep(w: seq<bool>, t: seq<bool>, next: seq<bool>)
    requires |w| == 32 < |t|
    requires next == var shifted := w[1..] + [false];
                     if w[0] != t[0] then XorBits(shifted, Generator()) else shifted
    ensures Remainder(Overlay(w, t)) == Remainder(Overlay(next, t[1..]))
  {
    hide Generator, Overlay, XorBits;
    OverlayStep(w, t, next);
  }

  /** One step of the division, on the overlaid bits. */
  lemma OverlayStep(w: seq<bool>, t: seq<bool>, next: seq<bool>)
    requires |w| == 32 < |t|
    requires next == var shifted := w[1..] + [false];
                     if w[0] != t[0] then XorBits(shifted, Generator()) else shifted
    ensures var o := Overlay(w, t);
            if o[0] then XorBits(o[1..33], Generator()) + o[33..] == Overlay(next, t[1..])
            else o[1..] == Overlay(next, t[1..])
  {
    hide Generator, Overlay, XorBits;
    var o, over := Overlay(w, t), Overlay(next, t[1..]);
    OverlayAt(w, t, 0);
    if o[0] {
      var divided := XorBits(o[1..33], Generator()) + o[33..];
      forall k | 0 <= k < |t| - 1 ensures divided[k] == over[k] {
        OverlayAt(w, t, k + 1);
        OverlayAt(next, t[1..], k);
        if k < 32 {
          XorBitsAt(o[1..33], Generator(), k);
          XorBitsAt(w[1..] + [false], Generator(), k);
        }
      }
      assert divided == over;
    } else {
      forall k | 0 <= k < |t| - 1 ensures o[1..][k] == over[k] {
        OverlayAt(w, t, k + 1);
        OverlayAt(next, t[1..], k);
      }
      assert o[1..] == over;
    }
  }

  lemma OverlayAt(register: seq<bool>, bits: seq<bool>, k: nat)
    requires |register| == 32 <= |bits| && k < |bits|
    ensures Overlay(register, bits)[k] == if k < 32 then register[k] != bits[k] else bits[k]
  {
  }

  lemma XorBitsAt(a: seq<bool>, b: seq<bool>, k: nat)
    requires k < |a| == |b|
    ensures XorBits(a, b)[k] == (a[k] != b[k])
  {
  }

  lemma ComplementXor(x: bv32)
    ensures !x == Xor(INITIAL, x)
  {
  }

  /** The register loop computes exactly the checksum RFC 3720 defines by polynomial division. */
  lemma CrcIsRemainder(bytes: Bytes)
    ensures RegisterBits(32, Crc(bytes)) == ChecksumBits(bytes)
  {
    hide Xor, Half, Low, Remainder, Overlay;
    var register := Update(INITIAL, bytes);
    ComplementXor(register);
    RegisterBitsXor(32, INITIAL, register);
    RegisterBitsOfInitial();
    UpdateFeeds(INITIAL, bytes);
    FeedBitsDivide(INITIAL, MessageBits(bytes));
  }

  // ---------- what the checksum detects ----------

  lemma HalvesOfZero(n: nat)
    ensures Halves(n, 0) == 0
  {
    hide Half;
    if n > 0 {
      HalfOfZero();
      HalvesOfZero(n - 1);
    }
  }

  lemma HalfOfZero()
    ensures Half(0) == 0
  {
  }

  /** The top coefficient is still there after 31 shifts. */
  lemma TopStays(y: bv32)
    requires y >= 0x8000_0000
    ensures Halves(31, y) != 0
  {
    hide Half, HalfEight, Halves;
    HalvesSplit(16, 15, y);
    HalvesSixteen(y);
    HalvesSplit(8, 7, Halves(16, y));
    HalvesEight(Halves(16, y));
    HalvesSplit(4, 3, HalfEight(Halves(16, y)));
    HalvesFour(HalfEight(Halves(16, y)));
    ThreeHalves(Halves(4, HalfEight(Halves(16, y))));
    TopShifted(y);
  }

  lemma ThreeHalves(x: bv32)
    ensures Halves(3, x) == Half(Half(Half(x)))
  {
    hide Half;
    assert Halves(3, x) == Halves(2, Half(x)) == Halves(1, Half(Half(x))) == Halves(0, Half(Half(Half(x))));
  }

  lemma TopShifted(y: bv32)
    requires y >= 0x8000_0000
    ensures Half(Half(Half(Half(Half(Half(Half(HalfEight(HalfEight(HalfEight(y)))))))))) != 0
  {
  }

  lemma OddStepIsHigh(x: bv32)
    ensures if Low(x) then Step(x) >= 0x8000_0000 else Step(x) == Half(x)
  {
  }

  /** A step whose result fits n < 32 low bits stepped a value of n + 1 low bits, and the polynomial stayed out. */
  lemma StepBack(n: nat, x: bv32)
    requires n < 32 && Halves(n, Step(x)) == 0
    ensures !Low(x) && Halves(n + 1, x) == 0
  {
    hide Half, Step, Low;
    OddStepIsHigh(x);
    if Low(x) {
      HalvesSplit(n, 31 - n, Step(x));
      HalvesOfZero(31 - n);
      TopStays(Step(x));
    }
  }

  /** How the difference of two registers moves when each is fed a bit. */
  lemma FedDifference(r: bv32, r': bv32, bit: bool, bit': bool)
    ensures var fed := Xor(if bit then 1 else 0, if bit' then 1 else 0);
            && Xor(FeedBit(r, bit), FeedBit(r', bit')) == Step(Xor(Xor(r, r'), fed))
            && Half(fed) == 0 && Low(fed) == (bit != bit')
  {
    hide Xor, Step, Half, Low;
    var b: bv32, b': bv32 := if bit then 1 else 0, if bit' then 1 else 0;
    Interchange(r, b, r', b');
    StepXor(Xor(r, b), Xor(r', b'));
    BitWord(bit);
    BitWord(bit');
    HalfXor(b, b');
    LowXor(b, b');
    XorZero(0);
  }

  /** Registers that meet after n <= 32 bits differed in their n low bits only. */
  lemma {:induction false} DifferenceOverWindow(r: bv32, r': bv32, u: seq<bool>, u': seq<bool>)
    requires |u| == |u'| <= 32 && FeedBits(r, u) == FeedBits(r', u')
    ensures Halves(|u|, Xor(r, r')) == 0
    decreases |u|
  {
    hide Xor, Step, Half, Low, FeedBit;
    if |u| == 0 {
      XorZero(r);
    } else {
      DifferenceOverWindow(FeedBit(r, u[0]), FeedBit(r', u'[0]), u[1..], u'[1..]);
      FedDifference(r, r', u[0], u'[0]);
      var fed := Xor(if u[0] then 1 else 0, if u'[0] then 1 else 0);
      StepBack(|u| - 1, Xor(Xor(r, r'), fed));
      HalfXor(Xor(r, r'), fed);
      XorZero(Half(Xor(r, r')));
    }
  }

  /** From one register, windows of at most 32 bits that lead to one register begin with the same bit. */
  lemma FirstBitsAgree(r: bv32, u: seq<bool>, u': seq<bool>)
    requires 0 < |u| == |u'| <= 32 && FeedBits(r, u) == FeedBits(r, u')
    ensures u[0] == u'[0]
  {
    hide Xor, Step, Half, Low, FeedBit, Halves;
    DifferenceOverWindow(FeedBit(r, u[0]), FeedBit(r, u'[0]), u[1..], u'[1..]);
    FedDifference(r, r, u[0], u'[0]);
    XorZero(r);
    var fed := Xor(if u[0] then 1 else 0, if u'[0] then 1 else 0);
    StepBack(|u| - 1, Xor(Xor(r, r), fed));
    LowXor(Xor(r, r), fed);
    LowOfZero();
  }

  /** From one register, different windows of at most 32 bits lead to different registers. */
  lemma {:induction false} WindowInjective(r: bv32, u: seq<bool>, u': seq<bool>)
    requires |u| == |u'| <= 32 && FeedBits(r, u) == FeedBits(r, u')
    ensures u == u'
    decreases |u|
  {
    hide FeedBit;
    if |u| > 0 {
      FirstBitsAgree(r, u, u');
      WindowInjective(FeedBit(r, u[0]), u[1..], u'[1..]);
      assert u == [u[0]] + u[1..] && u' == [u'[0]] + u'[1..];
    }
  }

  lemma {:induction false} FeedBitsInjective(r: bv32, r': bv32, bits: seq<bool>)
    requires FeedBits(r, bits) == FeedBits(r', bits)
    ensures r == r'
    decreases |bits|
  {
    hide Xor, Step;
    if |bits| > 0 {
      FeedBitsInjective(FeedBit(r, bits[0]), FeedBit(r', bits[0]), bits[1..]);
      var b: bv32 := if bits[0] then 1 else 0;
      StepInjective(Xor(r, b), Xor(r', b));
      XorAssociative(r, b, b);
      XorAssociative(r', b, b);
      XorZero(b);
      XorZero(r);
      XorZero(r');
    }
  }

  lemma WordInjective(a: Byte, b: Byte)
    requires Word(a) == Word(b)
    ensures a == b
  {
    ByteRoundTrip(a);
    ByteRoundTrip(b);
    WidenInjective(a as bv8, b as bv8);
  }

  lemma WidenInjective(a: bv8, b: bv8)
    requires a as bv32 == b as bv32
    ensures a == b
  {
  }

  lemma ByteBitsInjective(a: Byte, b: Byte)
    requires RegisterBits(8, Word(a)) == RegisterBits(8, Word(b))
    ensures a == b
  {
    hide Word, Step, Xor, FeedBit, Half, Low, HalfEight, FeedBits, RegisterBits;
    StepsFeed(8, 0, Word(a));
    StepsFeed(8, 0, Word(b));
    HalvesEight(Word(a));
    HalvesEight(Word(b));
    WordIsOneByte(a);
    WordIsOneByte(b);
    StepsInjective(8, Xor(0, Word(a)), Xor(0, Word(b)));
    ZeroXor(Word(a));
    ZeroXor(Word(b));
    WordInjective(a, b);
  }

  lemma ZeroXor(x: bv32)
    ensures Xor(0, x) == x
  {
  }

  lemma {:induction false} MessageBitsLength(bytes: Bytes)
    ensures |MessageBits(bytes)| == 8 * |bytes|
    decreases |bytes|
  {
    hide RegisterBits, Word;
    if |bytes| > 0 {
      MessageBitsLength(bytes[1..]);
    }
  }

  /** Messages with the same bits are the same. */
  lemma {:induction false} MessageBitsInjective(a: Bytes, b: Bytes)
    requires MessageBits(a) == MessageBits(b)
    ensures a == b
    decreases |a|
  {
    hide RegisterBits, Word;
    MessageBitsLength(a);
    MessageBitsLength(b);
    if |a| > 0 {
      var first, first' := RegisterBits(8, Word(a[0])), RegisterBits(8, Word(b[0]));
      var rest, rest' := MessageBits(a[1..]), MessageBits(b[1..]);
      assert first == (first + rest)[..8] && first' == (first' + rest')[..8];
      assert rest == (first + rest)[8..] && rest' == (first' + rest')[8..];
      ByteBitsInjective(a[0], b[0]);
      MessageBitsInjective(a[1..], b[1..]);
      assert a == [a[0]] + a[1..] && b == [b[0]] + b[1..];
    }
  }

  lemma CrcInjective(a: Bytes, b: Bytes)
    requires Crc(a) == Crc(b)
    ensures Update(INITIAL, a) == Update(INITIAL, b)
  {
    hide Update;
  }

  /** Two messages that differ within 32 consecutive bits, at any offset, always have different checksums. */
  lemma DetectsBurst(a: Bytes, b: Bytes, head: seq<bool>, u: seq<bool>, u': seq<bool>, tail: seq<bool>)
    requires |u| == |u'| <= 32
    requires MessageBits(a) == head + u + tail && MessageBits(b) == head + u' + tail
    ensures Crc(a) == Crc(b) <==> a == b
  {
    hide FeedBit, Crc, FeedBits, Update, MessageBits;
    if Crc(a) == Crc(b) {
      CrcInjective(a, b);
      UpdateFeeds(INITIAL, a);
      UpdateFeeds(INITIAL, b);
      var r := FeedBits(INITIAL, head);
      FeedBitsConcat(INITIAL, head + u, tail);
      FeedBitsConcat(INITIAL, head + u', tail);
      FeedBitsConcat(INITIAL, head, u);
      FeedBitsConcat(INITIAL, head, u');
      FeedBitsInjective(FeedBits(r, u), FeedBits(r, u'), tail);
      WindowInjective(r, u, u');
      MessageBitsInjective(a, b);
    }
  }

  lemma {:induction false} MessageBitsConcat(a: Bytes, b: Bytes)
    ensures MessageBits(a + b) == MessageBits(a) + MessageBits(b)
    decreases |a|
  {
    hide RegisterBits, Word;
    if |a| == 0 {
      assert a + b == b;
    } else {
      MessageBitsConcat(a[1..], b);
      assert (a + b)[1..] == a[1..] + b;
    }
  }

  /** In particular, no corruption confined to four consecutive bytes keeps the checksum. */
  lemma DetectsBytes(head: Bytes, w: Bytes, w': Bytes, tail: Bytes)
    requires |w| == |w'| <= 4
    ensures Crc(head + w + tail) == Crc(head + w' + tail) <==> w == w'
  {
    hide Crc, MessageBits;
    MessageBitsLength(w);
    MessageBitsLength(w');
    MessageBitsConcat(head + w, tail);
    MessageBitsConcat(head, w);
    MessageBitsConcat(head + w', tail);
    MessageBitsConcat(head, w');
    DetectsBurst(head + w + tail, head + w' + tail, MessageBits(head), MessageBits(w), MessageBits(w'),
        MessageBits(tail));
    assert w == (head + w + tail)[|head|..|head| + |w|] && w' == (head + w' + tail)[|head|..|head| + |w|];
  }

  // ---------- the check value ----------

  lemma NextByteFed(register: bv32, bytes: Bytes, next: bv32)
    requires |bytes| > 0 && UpdateByte(register, bytes[0]) == next
    ensures Update(register, bytes) == Update(next, bytes[1..])
  {
    hide UpdateByte;
  }

  lemma RegisterValues()
    ensures UpdateByte(0xffffffff, 49) == 0x6f0a661c
    ensures UpdateByte(0x6f0a661c, 50) == 0x8caa3b9f
    ensures UpdateByte(0x8caa3b9f, 51) == 0xef84d04d
    ensures UpdateByte(0xef84d04d, 52) == 0x09c50b11
    ensures UpdateByte(0x09c50b11, 53) == 0xe72edcca
    ensures UpdateByte(0xe72edcca, 54) == 0xbeca8e79
    ensures UpdateByte(0xbeca8e79, 55) == 0xedbd6815
    ensures UpdateByte(0xedbd6815, 56) == 0x9f787f65
    ensures UpdateByte(0x9f787f65, 57) == 0x1cf96d7c
  {
  }

  /** The checksum of the digits 1 to 9, by which implementations are compared. */
  lemma CheckValue()
    ensures Crc([49, 50, 51, 52, 53, 54, 55, 56, 57]) == 0xe3069283
  {
    hide UpdateByte, Update;
    RegisterValues();
    var digits: Bytes := [49, 50, 51, 52, 53, 54, 55, 56, 57];
    NextByteFed(0xffffffff, digits[0..], 0x6f0a661c);
    NextByteFed(0x6f0a661c, digits[1..], 0x8caa3b9f);
    NextByteFed(0x8caa3b9f, digits[2..], 0xef84d04d);
    NextByteFed(0xef84d04d, digits[3..], 0x09c50b11);
    NextByteFed(0x09c50b11, digits[4..], 0xe72edcca);
    NextByteFed(0xe72edcca, digits[5..], 0xbeca8e79);
    NextByteFed(0xbeca8e79, digits[6..], 0xedbd6815);
    NextByteFed(0xedbd6815, digits[7..], 0x9f787f65);
    NextByteFed(0x9f787f65, digits[8..], 0x1cf96d7c);
    NothingFed(digits[9..]);
  }

  lemma NothingFed(bytes: Bytes)
    requires |bytes| == 0
    ensures Update(0x1cf96d7c, bytes) == 0x1cf96d7c
  {
  }
}
