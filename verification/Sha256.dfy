/**
 * The streaming SHA-256: for every byte string and every way of splitting it
 * into updates, the digest is that of FIPS 180-4 (padding of section 5.1.1,
 * block function of section 6.2.2).
 */
module Sha256 {
  import opened Bytes
  import opened Outcomes

  type Word = bv32

  // ---------- section 4.1.2 of FIPS 180-4 ----------

  function Choose(x: Word, y: Word, z: Word): Word {
    (x & y) ^ (!x & z)
  }

  function Majority(x: Word, y: Word, z: Word): Word {
    (x & y) ^ (x & z) ^ (y & z)
  }

  function BigSigma0(x: Word): Word {
    x.RotateRight(2) ^ x.RotateRight(13) ^ x.RotateRight(22)
  }

  function BigSigma1(x: Word): Word {
    x.RotateRight(6) ^ x.RotateRight(11) ^ x.RotateRight(25)
  }

  function SmallSigma0(x: Word): Word {
    x.RotateRight(7) ^ x.RotateRight(18) ^ (x >> 3)
  }

  function SmallSigma1(x: Word): Word {
    x.RotateRight(17) ^ x.RotateRight(19) ^ (x >> 10)
  }

  /** The round constants, eight to a row. */
  const ROUND_CONSTANTS: seq<seq<Word>> := [
    [0x428a2f98, 0x71374491, 0xb5c0fbcf, 0xe9b5dba5, 0x3956c25b, 0x59f111f1, 0x923f82a4, 0xab1c5ed5],
    [0xd807aa98, 0x12835b01, 0x243185be, 0x550c7dc3, 0x72be5d74, 0x80deb1fe, 0x9bdc06a7, 0xc19bf174],
    [0xe49b69c1, 0xefbe4786, 0x0fc19dc6, 0x240ca1cc, 0x2de92c6f, 0x4a7484aa, 0x5cb0a9dc, 0x76f988da],
    [0x983e5152, 0xa831c66d, 0xb00327c8, 0xbf597fc7, 0xc6e00bf3, 0xd5a79147, 0x06ca6351, 0x14292967],
    [0x27b70a85, 0x2e1b2138, 0x4d2c6dfc, 0x53380d13, 0x650a7354, 0x766a0abb, 0x81c2c92e, 0x92722c85],
    [0xa2bfe8a1, 0xa81a664b, 0xc24b8b70, 0xc76c51a3, 0xd192e819, 0xd6990624, 0xf40e3585, 0x106aa070],
    [0x19a4c116, 0x1e376c08, 0x2748774c, 0x34b0bcb5, 0x391c0cb3, 0x4ed8aa4a, 0x5b9cca4f, 0x682e6ff3],
    [0x748f82ee, 0x78a5636f, 0x84c87814, 0x8cc70208, 0x90befffa, 0xa4506ceb, 0xbef9a3f7, 0xc67178f2]
  ]

  function RoundConstant(t: nat): Word
    requires t < 64
  {
    ROUND_CONSTANTS[t / 8][t % 8]
  }

  // ---------- section 6.2.2: the block function ----------

  datatype Registers = Registers(a: Word, b: Word, c: Word, d: Word, e: Word, f: Word, g: Word, h: Word)

  const INITIAL := Registers(
    0x6a09e667, 0xbb67ae85, 0x3c6ef372, 0xa54ff53a, 0x510e527f, 0x9b05688c, 0x1f83d9ab, 0x5be0cd19)

  type Block = b: Bytes | |b| == 64 witness seq(64, _ => 0)

  function MessageWord(b0: Byte, b1: Byte, b2: Byte, b3: Byte): Word {
    (((b0 as bv8) as Word) << 24) | (((b1 as bv8) as Word) << 16) | (((b2 as bv8) as Word) << 8) | ((b3 as bv8) as Word)
  }

  function Expand(w2: Word, w7: Word, w15: Word, w16: Word): Word {
    SmallSigma1(w2) + w7 + SmallSigma0(w15) + w16
  }

  /** The message schedule W_t. */
  function Schedule(block: Block, t: nat): Word
    requires t < 64
  {
    if t < 16 then
      MessageWord(block[4 * t], block[4 * t + 1], block[4 * t + 2], block[4 * t + 3])
    else
      Expand(Schedule(block, t - 2), Schedule(block, t - 7), Schedule(block, t - 15), Schedule(block, t - 16))
  }

  lemma ScheduleStarts(block: Block, t: nat)
    requires t < 16
    ensures Schedule(block, t)
         == MessageWord(block[4 * t], block[4 * t + 1], block[4 * t + 2], block[4 * t + 3])
  {
    hide MessageWord, Expand;
  }

  lemma ScheduleExpands(block: Block, t: nat)
    requires 16 <= t < 64
    ensures Schedule(block, t)
         == Expand(Schedule(block, t - 2), Schedule(block, t - 7), Schedule(block, t - 15), Schedule(block, t - 16))
  {
    hide MessageWord, Expand;
  }

  function Round(r: Registers, k: Word, w: Word): Registers {
    var t1 := r.h + BigSigma1(r.e) + Choose(r.e, r.f, r.g) + k + w;
    var t2 := BigSigma0(r.a) + Majority(r.a, r.b, r.c);
    Registers(t1 + t2, r.a, r.b, r.c, r.d + t1, r.e, r.f, r.g)
  }

  function Rounds(r: Registers, block: Block, n: nat): Registers
    requires n <= 64
  {
    if n == 0 then r
    else Round(Rounds(r, block, n - 1), RoundConstant(n - 1), Schedule(block, n - 1))
  }

  function AddRegisters(x: Registers, y: Registers): Registers {
    Registers(x.a + y.a, x.b + y.b, x.c + y.c, x.d + y.d, x.e + y.e, x.f + y.f, x.g + y.g, x.h + y.h)
  }

  function Compress(r: Registers, block: Block): Registers {
    AddRegisters(r, Rounds(r, block, 64))
  }

  // ---------- section 5.1.1: padding, and the whole hash ----------

  /** Folds the block function over the whole 64-byte blocks of `bytes`. */
  function Fold(r: Registers, bytes: Bytes): Registers
    requires |bytes| % 64 == 0
    decreases |bytes|
  {
    if |bytes| == 0 then r else Fold(Compress(r, bytes[..64]), bytes[64..])
  }

  function ZeroBytes(n: nat): (z: Bytes)
    ensures |z| == n
  {
    seq(n, _ => 0)
  }

  /** The number of zero bytes after the 0x80 byte. */
  function PaddingZeros(length: nat): (z: nat)
    ensures (length + 1 + z) % 64 == 56
  {
    (55 - length) % 64
  }

  /** Section 5.1.1 asks for the smallest such number. */
  lemma PaddingIsLeast(length: nat, zeros: nat)
    requires (length + 1 + zeros) % 64 == 56
    ensures PaddingZeros(length) <= zeros
  {
  }

  lemma EightMore(n: nat)
    requires n % 64 == 56
    ensures (n + 8) % 64 == 0
  {
  }

  function Padding(length: nat): (p: Bytes)
    ensures (length + |p|) % 64 == 0
  {
    var zeros := PaddingZeros(length);
    EightMore(length + 1 + zeros);
    [0x80] + ZeroBytes(zeros) + BigEndian(8 * length, 8)
  }

  function WordBytes(w: Word): (b: Bytes)
    ensures |b| == 4
  {
    [((w >> 24) as bv8) as int, (((w >> 16) & 0xff) as bv8) as int,
     (((w >> 8) & 0xff) as bv8) as int, ((w & 0xff) as bv8) as int]
  }

  function RegisterBytes(r: Registers): (b: Bytes)
    ensures |b| == 32
  {
    WordBytes(r.a) + WordBytes(r.b) + WordBytes(r.c) + WordBytes(r.d)
    + WordBytes(r.e) + WordBytes(r.f) + WordBytes(r.g) + WordBytes(r.h)
  }

  /** FIPS 180-4 SHA-256 of a message. */
  function Hash(message: Bytes): (digest: Bytes)
    ensures |digest| == 32
  {
    RegisterBytes(Fold(INITIAL, message + Padding(|message|)))
  }

  lemma {:induction false} FoldConcat(r: Registers, a: Bytes, b: Bytes)
    requires |a| % 64 == 0 && |b| % 64 == 0
    ensures (|a| + |b|) % 64 == 0
    ensures Fold(r, a + b) == Fold(Fold(r, a), b)
    decreases |a|
  {
    hide Compress;
    if |a| == 0 {
      assert a + b == b;
    } else {
      FoldConcat(Compress(r, a[..64]), a[64..], b);
      assert (a + b)[..64] == a[..64];
      assert (a + b)[64..] == a[64..] + b;
    }
  }

  lemma FoldNone(r: Registers)
    ensures Fold(r, []) == r
  {
    hide Compress;
  }

  lemma FoldOne(r: Registers, block: Block)
    ensures Fold(r, block) == Compress(r, block)
  {
    hide Compress;
    assert block[..64] == block;
    assert block[64..] == [];
  }

  lemma AbsorbBlock(r: Registers, m: Bytes, block: Block)
    requires |m| % 64 == 0
    ensures Fold(r, m + block) == Compress(Fold(r, m), block)
  {
    hide Compress;
    FoldConcat(r, m, block);
    FoldOne(Fold(r, m), block);
  }

  lemma AbsorbTwoBlocks(r: Registers, m: Bytes, first: Block, second: Block)
    requires |m| % 64 == 0
    ensures Fold(r, m + first + second) == Compress(Compress(Fold(r, m), first), second)
  {
    hide Compress, Fold;
    AbsorbBlock(r, m, first);
    AbsorbBlock(r, m + first, second);
  }

  // ---------- the streaming hasher ----------

  const MAX_U64: nat := 0xffff_ffff_ffff_ffff

  datatype HashError = AlreadyFinished | InputTooLarge | Truncated

  /** Where the last, incomplete block of a message begins. */
  function Whole(message: Bytes): (n: nat)
    ensures n <= |message| && n % 64 == 0
  {
    |message| - |message| % 64
  }

  lemma StartsAfterWhole(m: Bytes, rest: Bytes)
    requires |m| % 64 == 0 && |rest| < 64
    ensures Whole(m + rest) == |m| == Whole(m)
    ensures (m + rest)[..|m|] == m == m[..|m|] && (m + rest)[|m|..] == rest
  {
  }

  lemma NextBlock(before: Bytes, bytes: Bytes, consumed: nat)
    requires consumed + 64 <= |bytes| && (|before| + consumed) % 64 == 0
    ensures var m := before + bytes[..consumed];
            var m' := before + bytes[..consumed + 64];
            && Whole(m) == |m| && Whole(m') == |m'|
            && Fold(INITIAL, m'[..Whole(m')]) == Compress(Fold(INITIAL, m[..Whole(m)]), bytes[consumed..consumed + 64])
  {
    hide Fold, Compress;
    var m := before + bytes[..consumed];
    var block := bytes[consumed..consumed + 64];
    AbsorbBlock(INITIAL, m, block);
    assert before + bytes[..consumed + 64] == m + block;
    assert m[..Whole(m)] == m;
    assert (m + block)[..|m + block|] == m + block;
  }

  lemma ShortPadding(n: nat)
    requires n % 64 <= 55
    ensures Padding(n) == [0x80] + ZeroBytes(55 - n % 64) + BigEndian(8 * n, 8)
  {
    hide BigEndian, ZeroBytes;
    assert PaddingZeros(n) == 55 - n % 64;
  }

  lemma LongPadding(n: nat)
    requires n % 64 > 55
    ensures Padding(n) == [0x80] + ZeroBytes(63 - n % 64) + ZeroBytes(56) + BigEndian(8 * n, 8)
  {
    hide BigEndian;
    assert PaddingZeros(n) == 119 - n % 64;
    assert ZeroBytes(119 - n % 64) == ZeroBytes(63 - n % 64) + ZeroBytes(56);
  }

  lemma Splits(m: Bytes)
    ensures m == m[..Whole(m)] + m[Whole(m)..]
    ensures |m[Whole(m)..]| == |m| % 64
  {
  }

  lemma Regroup(whole: Bytes, rest: Bytes, marker: Bytes, zeros: Bytes, length: Bytes)
    ensures whole + rest + (marker + zeros + length) == whole + (rest + marker + zeros + length)
  {
  }

  lemma RegroupTwo(whole: Bytes, rest: Bytes, marker: Bytes, zeros: Bytes, zeros': Bytes, length: Bytes)
    ensures whole + rest + (marker + zeros + zeros' + length)
         == whole + (rest + marker + zeros) + (zeros' + length)
  {
  }

  /** The final block when the length still fits behind the message's tail. */
  lemma FinishOneBlock(m: Bytes, block: Block)
    requires |m| % 64 <= 55
    requires block == m[Whole(m)..] + [0x80] + ZeroBytes(55 - |m| % 64) + BigEndian(8 * |m|, 8)
    ensures Hash(m) == RegisterBytes(Compress(Fold(INITIAL, m[..Whole(m)]), block))
  {
    hide Compress, Fold, BigEndian, ZeroBytes, Padding, RegisterBytes;
    ShortPadding(|m|);
    Splits(m);
    Regroup(m[..Whole(m)], m[Whole(m)..], [0x80], ZeroBytes(55 - |m| % 64), BigEndian(8 * |m|, 8));
    AbsorbBlock(INITIAL, m[..Whole(m)], block);
  }

  /** The final two blocks when it does not. */
  lemma FinishTwoBlocks(m: Bytes, first: Block, second: Block)
    requires |m| % 64 > 55
    requires first == m[Whole(m)..] + [0x80] + ZeroBytes(63 - |m| % 64)
    requires second == ZeroBytes(56) + BigEndian(8 * |m|, 8)
    ensures Hash(m) == RegisterBytes(Compress(Compress(Fold(INITIAL, m[..Whole(m)]), first), second))
  {
    hide Compress, Fold, BigEndian, ZeroBytes, Padding, RegisterBytes;
    LongPadding(|m|);
    Splits(m);
    var whole := m[..Whole(m)];
    RegroupTwo(whole, m[Whole(m)..], [0x80], ZeroBytes(63 - |m| % 64), ZeroBytes(56), BigEndian(8 * |m|, 8));
    AbsorbTwoBlocks(INITIAL, whole, first, second);
  }

  class Hasher {
    var state: Registers
    const buffer: array<Byte>
    var buffered: nat
    var totalBytes: nat
    var finished: bool
    ghost var message: Bytes

    /** Until it is finished, the state has absorbed the whole blocks of the
        message and the buffer holds exactly the rest. */
    ghost predicate Valid()
      reads this, buffer
    {
      && buffer.Length == 64
      && totalBytes == |message| <= MAX_U64
      && (!finished ==> Absorbed(message))
    }

    ghost predicate Absorbed(m: Bytes)
      requires buffer.Length == 64
      reads this, buffer
    {
      && buffered == |m| % 64
      && buffer[..buffered] == m[Whole(m)..]
      && state == Fold(INITIAL, m[..Whole(m)])
    }

    constructor ()
      ensures Valid() && fresh(buffer)
      ensures !finished && message == []
    {
      hide Fold, Compress;
      FoldNone(INITIAL);
      state := INITIAL;
      buffer := new Byte[64];
      buffered := 0;
      totalBytes := 0;
      finished := false;
      message := [];
    }

    method Transform(block: Block)
      modifies this`state
      ensures state == Compress(old(state), block)
    {
      hide Round, RoundConstant, AddRegisters, Schedule;
      var schedule := MessageSchedule(block);
      var working := state;
      for round := 0 to 64
        modifies {}
        invariant working == Rounds(old(state), block, round)
      {
        working := Round(working, RoundConstant(round), schedule[round]);
      }
      state := AddRegisters(state, working);
    }

    method Update(bytes: Bytes) returns (r: Result<(), HashError>)
      requires Valid()
      modifies this, buffer
      ensures Valid()
      ensures r == if old(finished) then Err(AlreadyFinished)
                   else if |old(message)| + |bytes| >= 0x1_0000_0000_0000_0000 then Err(InputTooLarge)
                   else Ok(())
      ensures r.Ok? ==> message == old(message) + bytes && !finished
      ensures r.Err? ==> unchanged(this) && unchanged(buffer)
    {
      hide Compress, Fold;
      if finished {
        return Err(AlreadyFinished);
      }
      if |bytes| > MAX_U64 - totalBytes {
        return Err(InputTooLarge);
      }
      ghost var before := message;
      totalBytes := totalBytes + |bytes|;
      message := message + bytes;
      if |bytes| == 0 {
        assert message == before;
        return Ok(());
      }
      var consumed := 0;
      assert before + bytes[..0] == before;
      if buffered != 0 {
        consumed := FillBuffer(bytes, before);
      }
      while |bytes| - consumed >= 64
        invariant consumed <= |bytes|
        invariant buffered == 0 || consumed == |bytes|
        invariant Absorbed(before + bytes[..consumed])
        invariant !finished && totalBytes == |message| && message == before + bytes
      {
        NextBlock(before, bytes, consumed);
        Transform(bytes[consumed..consumed + 64]);
        consumed := consumed + 64;
      }
      StoreRest(bytes, consumed, before);
      r := Ok(());
    }

    method StoreRest(bytes: Bytes, consumed: nat, ghost before: Bytes)
      requires buffer.Length == 64 && consumed <= |bytes| < consumed + 64
      requires Absorbed(before + bytes[..consumed])
      requires buffered == 0 || consumed == |bytes|
      modifies this`buffered, buffer
      ensures Absorbed(before + bytes)
    {
      hide Compress, Fold;
      ghost var m := before + bytes[..consumed];
      assert m + bytes[consumed..] == before + bytes;
      var remaining := |bytes| - consumed;
      if remaining != 0 {
        forall i | 0 <= i < remaining {
          buffer[i] := bytes[consumed + i];
        }
        buffered := remaining;
        StartsAfterWhole(m, bytes[consumed..]);
        assert buffer[..buffered] == bytes[consumed..];
        assert Absorbed(m + bytes[consumed..]);
      } else {
        assert m == before + bytes;
      }
    }

    /** Tops up a partly filled buffer and absorbs it once it is full. */
    method FillBuffer(bytes: Bytes, ghost before: Bytes) returns (consumed: nat)
      requires buffer.Length == 64 && Absorbed(before) && buffered != 0
      modifies this`state, this`buffered, buffer
      ensures consumed <= |bytes| && Absorbed(before + bytes[..consumed])
      ensures buffered == 0 || consumed == |bytes|
    {
      hide Compress, Fold;
      consumed := if 64 - buffered < |bytes| then 64 - buffered else |bytes|;
      forall i | 0 <= i < consumed {
        buffer[buffered + i] := bytes[i];
      }
      buffered := buffered + consumed;
      ghost var m := before + bytes[..consumed];
      ghost var whole := before[..Whole(before)];
      assert buffer[..buffered] == before[Whole(before)..] + bytes[..consumed];
      assert m == whole + buffer[..buffered];
      if buffered == 64 {
        AbsorbBlock(INITIAL, whole, buffer[..]);
        Transform(buffer[..]);
        buffered := 0;
        assert m[..Whole(m)] == whole + buffer[..];
      } else {
        assert m[..Whole(m)] == whole;
      }
    }

    method Finish() returns (r: Result<Bytes, HashError>)
      requires Valid()
      modifies this, buffer
      ensures Valid() && message == old(message)
      ensures r == if old(finished) then Err(AlreadyFinished)
                   else if 8 * |old(message)| >= 0x1_0000_0000_0000_0000 then Err(InputTooLarge)
                   else Ok(Hash(old(message)))
      ensures r.Ok? ==> finished
      ensures r.Err? ==> unchanged(this) && unchanged(buffer)
    {
      hide Compress, Fold, Hash, BigEndian, RegisterBytes;
      if finished {
        return Err(AlreadyFinished);
      }
      if totalBytes > MAX_U64 / 8 {
        return Err(InputTooLarge);
      }
      var totalBits := totalBytes * 8;
      ghost var rest := buffer[..buffered];
      AppendMarker();
      AppendLength(totalBits);
      if |rest| <= 55 {
        FinishOneBlock(message, buffer[..]);
      } else {
        FinishTwoBlocks(message, rest + [0x80] + ZeroBytes(63 - |rest|), buffer[..]);
      }
      Transform(buffer[..]);
      finished := true;
      r := Ok(RegisterBytes(state));
    }

    /** Stores the 0x80 byte, and absorbs the block if no room is left for the length. */
    method AppendMarker()
      requires buffer.Length == 64 && buffered < 64
      modifies this`state, this`buffered, buffer
      ensures old(buffered) <= 55 ==>
        && buffered == old(buffered) + 1
        && buffer[..buffered] == old(buffer[..buffered]) + [0x80]
        && state == old(state)
      ensures old(buffered) > 55 ==>
        && buffered == 0
        && state == Compress(old(state), old(buffer[..buffered]) + [0x80] + ZeroBytes(63 - old(buffered)))
    {
      hide Compress;
      ghost var rest := buffer[..buffered];
      buffer[buffered] := 0x80;
      buffered := buffered + 1;
      assert buffer[..buffered] == rest + [0x80];
      if buffered > 56 {
        forall i | buffered <= i < 64 {
          buffer[i] := 0;
        }
        assert buffer[..] == rest + [0x80] + ZeroBytes(63 - |rest|);
        Transform(buffer[..]);
        buffered := 0;
      }
    }

    /** Zero-fills up to byte 56 and stores the bit length after it. */
    method AppendLength(totalBits: nat)
      requires buffer.Length == 64 && buffered <= 56
      modifies buffer
      ensures buffer[..] == old(buffer[..buffered]) + ZeroBytes(56 - buffered) + BigEndian(totalBits, 8)
    {
      hide BigEndian, Power256;
      forall i | buffered <= i < 56 {
        buffer[i] := 0;
      }
      ghost var filled := old(buffer[..buffered]) + ZeroBytes(56 - buffered);
      assert buffer[..56] == filled;
      for byte := 0 to 8
        modifies buffer
        invariant buffer[..56 + byte] == filled + BigEndian(totalBits, 8)[..byte]
      {
        BigEndianAt(totalBits, 8, byte);
        buffer[56 + byte] := totalBits / Power256(7 - byte) % 256;
        assert buffer[..57 + byte] == buffer[..56 + byte] + [buffer[56 + byte]];
      }
      assert buffer[..] == buffer[..64];
    }
  }

  method MessageSchedule(block: Block) returns (schedule: array<Word>)
    ensures fresh(schedule) && schedule.Length == 64
    ensures forall t: nat :: t < 64 ==> schedule[t] == Schedule(block, t)
  {
    hide MessageWord, Expand, Schedule;
    schedule := new Word[64];
    for word := 0 to 16
      invariant forall t: nat :: t < word ==> schedule[t] == Schedule(block, t)
    {
      ScheduleStarts(block, word);
      var offset := 4 * word;
      schedule[word] :=
        MessageWord(block[offset], block[offset + 1], block[offset + 2], block[offset + 3]);
    }
    for word := 16 to 64
      invariant forall t: nat :: t < word ==> schedule[t] == Schedule(block, t)
    {
      ScheduleExpands(block, word);
      schedule[word] :=
        Expand(schedule[word - 2], schedule[word - 7], schedule[word - 15], schedule[word - 16]);
    }
  }

  const CHUNK_SIZE: nat := 1024 * 1024

  /** Hashes the first `count` bytes of a stream in chunks; the chunk size leaves no trace in the result. */
  method HashPrefix(input: Bytes, count: nat) returns (r: Result<Bytes, HashError>)
    requires count <= MAX_U64
    ensures r == if count > |input| then Err(Truncated)
                 else if 8 * count >= 0x1_0000_0000_0000_0000 then Err(InputTooLarge)
                 else Ok(Hash(input[..count]))
  {
    hide Hash, Fold, Hasher.Absorbed;
    var hasher := new Hasher();
    var remaining: nat := count;
    while remaining != 0
      invariant remaining <= count && count - remaining <= |input|
      invariant hasher.Valid() && !hasher.finished
      invariant fresh(hasher) && fresh(hasher.buffer)
      invariant hasher.message == input[..count - remaining]
    {
      var requested := if remaining < CHUNK_SIZE then remaining else CHUNK_SIZE;
      var position := count - remaining;
      if requested > |input| - position {
        return Err(Truncated);
      }
      var updated := hasher.Update(input[position..position + requested]);
      assert updated.Ok?;
      assert input[..position + requested] == input[..position] + input[position..position + requested];
      remaining := remaining - requested;
    }
    r := hasher.Finish();
  }
}
