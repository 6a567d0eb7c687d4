/**
 * Packing codes of 1 to 8 bits into a byte buffer, in place. Everything is
 * stated bit by bit: packing sets exactly the code's own bits, and unpacking
 * reads exactly those.
 */
module BitPacking {

  // ---------- bits of bytes and shifts by small amounts ----------

  predicate Bit(b: bv8, i: nat)
    requires i < 8
  {
    match i
    case 0 => b & 0x01 != 0
    case 1 => b & 0x02 != 0
    case 2 => b & 0x04 != 0
    case 3 => b & 0x08 != 0
    case 4 => b & 0x10 != 0
    case 5 => b & 0x20 != 0
    case 6 => b & 0x40 != 0
    case _ => b & 0x80 != 0
  }

  /** value << s */
  function Shl(value: bv32, s: nat): bv32
    requires s <= 8
  {
    match s
    case 0 => value
    case 1 => value << 1
    case 2 => value << 2
    case 3 => value << 3
    case 4 => value << 4
    case 5 => value << 5
    case 6 => value << 6
    case 7 => value << 7
    case _ => value << 8
  }

  /** value >> s */
  function Shr(value: bv32, s: nat): bv32
    requires s <= 8
  {
    match s
    case 0 => value
    case 1 => value >> 1
    case 2 => value >> 2
    case 3 => value >> 3
    case 4 => value >> 4
    case 5 => value >> 5
    case 6 => value >> 6
    case 7 => value >> 7
    case _ => value >> 8
  }

  /** The cast to an 8-bit integer. */
  function Octet(value: bv32): bv8 {
    (value & 0xff) as bv8
  }

  /** (1 << bits) - 1 */
  function Mask(bits: nat): bv32
    requires bits <= 8
  {
    match bits
    case 0 => 0x00
    case 1 => 0x01
    case 2 => 0x03
    case 3 => 0x07
    case 4 => 0x0f
    case 5 => 0x1f
    case 6 => 0x3f
    case 7 => 0x7f
    case _ => 0xff
  }

  function Masked(value: bv32, bits: nat): bv32
    requires bits <= 8
  {
    value & Mask(bits)
  }

  function Or(a: bv8, b: bv8): bv8 {
    a | b
  }

  /** The bits of a code that starts `shift` bits into `low` and may continue in `high`. */
  function Joined(low: bv8, high: bv8, shift: nat): bv32
    requires shift < 8
  {
    Shr(low as bv32, shift) | Shl(high as bv32, 8 - shift)
  }

  function Alone(low: bv8, shift: nat): bv32
    requires shift < 8
  {
    Shr(low as bv32, shift)
  }

  /** The value is below 2^bits. */
  predicate FitsIn(value: bv32, bits: nat)
    requires bits <= 8
  {
    Masked(value, bits) == value
  }

  lemma OctetRoundTrip(value: bv32)
    requires value & 0xff == value
    ensures Octet(value) as bv32 == value
  {
  }

  lemma ShlBits(value: bv32, shift: nat, i: nat)
    requires shift < 8 && i < 8
    ensures Bit(Octet(Shl(value, shift)), i) == (i >= shift && Bit(Octet(value), i - shift))
  {
    match shift case 0 => case 1 => case 2 => case 3 => case 4 => case 5 => case 6 => case _ =>
  }

  lemma ShrBits(value: bv32, shift: nat, i: nat)
    requires 0 < shift < 8 && i < 8 && value & 0xff == value
    ensures Bit(Octet(Shr(value, 8 - shift)), i) == (i < shift && Bit(Octet(value), i + 8 - shift))
  {
    match shift case 0 => case 1 => case 2 => case 3 => case 4 => case 5 => case 6 => case _ =>
  }

  lemma OrBits(a: bv8, b: bv8, i: nat)
    requires i < 8
    ensures Bit(Or(a, b), i) == (Bit(a, i) || Bit(b, i))
  {
    match i case 0 => case 1 => case 2 => case 3 => case 4 => case 5 => case 6 => case _ =>
  }

  /** Reading across a byte boundary. */
  lemma WindowBits(low: bv8, high: bv8, shift: nat, j: nat)
    requires 0 < shift < 8 && j < 8
    ensures Bit(Octet(Joined(low, high, shift)), j)
         == if j + shift < 8 then Bit(low, j + shift) else Bit(high, j + shift - 8)
  {
    match shift case 0 => case 1 => case 2 => case 3 => case 4 => case 5 => case 6 => case _ =>
  }

  lemma ByteBits(low: bv8, shift: nat, j: nat)
    requires shift < 8 && j < 8
    ensures Bit(Octet(Alone(low, shift)), j) == (j + shift < 8 && Bit(low, j + shift))
  {
    match shift case 0 => case 1 => case 2 => case 3 => case 4 => case 5 => case 6 => case _ =>
  }

  lemma MaskBits(value: bv32, bits: nat, j: nat)
    requires bits <= 8 && j < 8
    ensures Bit(Octet(Masked(value, bits)), j) == (j < bits && Bit(Octet(value), j))
  {
    hide Bit, Octet, Masked, Mask;
    MaskedBit(value, Mask(bits), j);
    MaskTable(bits, j);
    MaskIs(value, bits);
  }

  lemma MaskIs(value: bv32, bits: nat)
    requires bits <= 8
    ensures Masked(value, bits) == And(value, Mask(bits))
  {
    hide Mask;
  }

  function And(a: bv32, b: bv32): bv32 {
    a & b
  }

  lemma MaskedBit(value: bv32, mask: bv32, j: nat)
    requires j < 8
    ensures Bit(Octet(And(value, mask)), j) == (Bit(Octet(value), j) && Bit(Octet(mask), j))
  {
    match j case 0 => case 1 => case 2 => case 3 => case 4 => case 5 => case 6 => case _ =>
  }

  lemma MaskTable(bits: nat, j: nat)
    requires bits <= 8 && j < 8
    ensures Bit(Octet(Mask(bits)), j) == (j < bits)
  {
    match bits case 0 => case 1 => case 2 => case 3 => case 4 => case 5 => case 6 => case 7 => case _ =>
  }

  lemma MaskFits(value: bv32, bits: nat)
    requires bits <= 8
    ensures FitsIn(Masked(value, bits), bits)
  {
  }

  lemma FitsInOctet(value: bv32, bits: nat)
    requires bits <= 8 && FitsIn(value, bits)
    ensures value & 0xff == value
  {
    match bits case 0 => case 1 => case 2 => case 3 => case 4 => case 5 => case 6 => case 7 => case _ =>
  }

  lemma SameBitsSameByte(a: bv8, b: bv8)
    requires forall i: nat :: i < 8 ==> Bit(a, i) == Bit(b, i)
    ensures a == b
  {
    assert Bit(a, 0) == Bit(b, 0) && Bit(a, 1) == Bit(b, 1) && Bit(a, 2) == Bit(b, 2) && Bit(a, 3) == Bit(b, 3);
    assert Bit(a, 4) == Bit(b, 4) && Bit(a, 5) == Bit(b, 5) && Bit(a, 6) == Bit(b, 6) && Bit(a, 7) == Bit(b, 7);
  }

  // ---------- bits of a buffer ----------

  /** Bit k of a buffer is bit k % 8 of byte k / 8. */
  predicate BitAt(packed: seq<bv8>, k: nat)
    requires k < 8 * |packed|
  {
    Bit(packed[k / 8], k % 8)
  }

  /** `unpack_code` */
  function UnpackCode(packed: seq<bv8>, offset: nat, bits: nat): (value: bv32)
    requires 1 <= bits <= 8 && offset + bits <= 8 * |packed|
  {
    var byte, shift := offset / 8, offset % 8;
    var value := if shift + bits > 8 then Joined(packed[byte], packed[byte + 1], shift) else Alone(packed[byte], shift);
    Masked(value, bits)
  }

  lemma UnpackedBits(packed: seq<bv8>, offset: nat, bits: nat, j: nat)
    requires 1 <= bits <= 8 && offset + bits <= 8 * |packed| && j < 8
    ensures FitsIn(UnpackCode(packed, offset, bits), bits)
    ensures Bit(Octet(UnpackCode(packed, offset, bits)), j) == (j < bits && BitAt(packed, offset + j))
  {
    hide Bit, Masked, Joined, Alone, Octet, FitsIn;
    var byte, shift := offset / 8, offset % 8;
    ByteBits(packed[byte], shift, j);
    if shift + bits > 8 {
      var value := Joined(packed[byte], packed[byte + 1], shift);
      WindowBits(packed[byte], packed[byte + 1], shift, j);
      MaskBits(value, bits, j);
      MaskFits(value, bits);
    } else {
      MaskBits(Alone(packed[byte], shift), bits, j);
      MaskFits(Alone(packed[byte], shift), bits);
    }
    assert (offset + j) / 8 == byte + (shift + j) / 8;
  }

  /** `pack_code`: ORs the code into the buffer. */
  method PackCode(packed: array<bv8>, offset: nat, bits: nat, value: bv32)
    requires 1 <= bits <= 8 && offset + bits <= 8 * packed.Length && FitsIn(value, bits)
    modifies packed
    ensures forall k: nat :: k < 8 * packed.Length ==>
      BitAt(packed[..], k)
      == (BitAt(old(packed[..]), k) || (offset <= k < offset + bits && Bit(Octet(value), k - offset)))
  {
    hide Bit, Or, Shl, Shr, Octet, FitsIn;
    var byte, shift := offset / 8, offset % 8;
    ghost var before := packed[..];
    packed[byte] := Or(packed[byte], Octet(Shl(value, shift)));
    if shift + bits > 8 {
      packed[byte + 1] := Or(packed[byte + 1], Octet(Shr(value, 8 - shift)));
    }
    ghost var after := packed[..];
    forall k: nat | k < 8 * packed.Length
      ensures BitAt(after, k) == (BitAt(before, k) || (offset <= k < offset + bits && Bit(Octet(value), k - offset)))
    {
      PackedBit(before, after, offset, bits, value, k);
    }
  }

  lemma PackedBit(before: seq<bv8>, after: seq<bv8>, offset: nat, bits: nat, value: bv32, k: nat)
    requires 1 <= bits <= 8 && offset + bits <= 8 * |before| && FitsIn(value, bits)
    requires k < 8 * |before| && |after| == |before|
    requires var byte, shift := offset / 8, offset % 8;
      && after[byte] == Or(before[byte], Octet(Shl(value, shift)))
      && (shift + bits > 8 ==> after[byte + 1] == Or(before[byte + 1], Octet(Shr(value, 8 - shift))))
      && (forall i :: 0 <= i < |before| && i != byte && !(shift + bits > 8 && i == byte + 1) ==> after[i] == before[i])
    ensures BitAt(after, k) == (BitAt(before, k) || (offset <= k < offset + bits && Bit(Octet(value), k - offset)))
  {
    hide Bit, Or, Shl, Shr, Octet, FitsIn;
    var byte, shift := offset / 8, offset % 8;
    FitsInOctet(value, bits);
    if k / 8 == byte {
      var i := k % 8;
      OrBits(before[byte], Octet(Shl(value, shift)), i);
      ShlBits(value, shift, i);
      if i >= shift {
        NoHighBits(value, bits, i - shift);
      }
    } else if shift + bits > 8 && k / 8 == byte + 1 {
      var i := k % 8;
      OrBits(before[byte + 1], Octet(Shr(value, 8 - shift)), i);
      ShrBits(value, shift, i);
      if i < shift {
        NoHighBits(value, bits, i + 8 - shift);
      }
    }
  }

  lemma NoHighBits(value: bv32, bits: nat, i: nat)
    requires bits <= 8 && FitsIn(value, bits) && i < 8
    ensures Bit(Octet(value), i) ==> i < bits
  {
    hide Bit, Octet, Masked;
    MaskBits(value, bits, i);
  }

  lemma FittingValuesEqual(a: bv32, b: bv32, bits: nat)
    requires bits <= 8 && FitsIn(a, bits) && FitsIn(b, bits)
    requires forall i: nat :: i < 8 ==> Bit(Octet(a), i) == Bit(Octet(b), i)
    ensures a == b
  {
    hide Bit, Masked;
    FitsInOctet(a, bits);
    FitsInOctet(b, bits);
    SameBitsSameByte(Octet(a), Octet(b));
    OctetRoundTrip(a);
    OctetRoundTrip(b);
  }

  // ---------- whole vectors of codes ----------

  /** The codes of one vector: code i at bit i * bits after `start`. */
  predicate HoldsCodes(packed: seq<bv8>, start: nat, bits: nat, codes: seq<bv32>)
    requires 1 <= bits <= 8
  {
    && start + |codes| * bits <= 8 * |packed|
    && forall i :: 0 <= i < |codes| ==>
      (Consecutive(i, |codes|, bits); UnpackCode(packed, start + i * bits, bits) == codes[i])
  }

  lemma Consecutive(i: nat, count: nat, bits: nat)
    requires i < count
    ensures i * bits + bits == (i + 1) * bits <= count * bits
  {
    assert (i + 1) * bits + (count - i - 1) * bits == count * bits;
    NonNegative(count - i - 1, bits);
  }

  lemma NonNegative(a: nat, b: nat)
    ensures a * b >= 0
  {
  }

  predicate ZeroBetween(packed: seq<bv8>, from: nat, to: nat) {
    forall k: nat :: from <= k < to && k < 8 * |packed| ==> !BitAt(packed, k)
  }

  /** Unpacking depends on the code's own bits only. */
  lemma UnpackLocal(p: seq<bv8>, q: seq<bv8>, offset: nat, bits: nat)
    requires 1 <= bits <= 8 && offset + bits <= 8 * |p| && |p| == |q|
    requires forall k: nat :: offset <= k < offset + bits ==> BitAt(p, k) == BitAt(q, k)
    ensures UnpackCode(p, offset, bits) == UnpackCode(q, offset, bits)
  {
    hide Bit, UnpackCode, Octet, FitsIn;
    var v, w := UnpackCode(p, offset, bits), UnpackCode(q, offset, bits);
    UnpackedBits(p, offset, bits, 0);
    UnpackedBits(q, offset, bits, 0);
    forall i: nat | i < 8 ensures Bit(Octet(v), i) == Bit(Octet(w), i) {
      UnpackedBits(p, offset, bits, i);
      UnpackedBits(q, offset, bits, i);
    }
    FittingValuesEqual(v, w, bits);
  }

  /** What is packed into zero bits is what is unpacked, also across a byte boundary. */
  lemma UnpackPacked(before: seq<bv8>, after: seq<bv8>, offset: nat, bits: nat, value: bv32)
    requires 1 <= bits <= 8 && offset + bits <= 8 * |before| && |before| == |after| && FitsIn(value, bits)
    requires ZeroBetween(before, offset, offset + bits)
    requires forall k: nat :: k < 8 * |before| ==>
      BitAt(after, k) == (BitAt(before, k) || (offset <= k < offset + bits && Bit(Octet(value), k - offset)))
    ensures UnpackCode(after, offset, bits) == value
  {
    hide Bit, UnpackCode, Octet, FitsIn, BitAt;
    var v := UnpackCode(after, offset, bits);
    UnpackedBits(after, offset, bits, 0);
    forall i: nat | i < 8 ensures Bit(Octet(v), i) == Bit(Octet(value), i) {
      UnpackedBits(after, offset, bits, i);
      NoHighBits(value, bits, i);
    }
    FittingValuesEqual(v, value, bits);
  }

  /** `after` is `before` with one code ORed in at `offset`. */
  predicate PackedAt(before: seq<bv8>, after: seq<bv8>, offset: nat, bits: nat, value: bv32)
    requires bits <= 8
  {
    && |before| == |after|
    && forall k: nat :: k < 8 * |before| ==>
      BitAt(after, k) == (BitAt(before, k) || (offset <= k < offset + bits && Bit(Octet(value), k - offset)))
  }

  /** Packing one more code keeps every earlier one and leaves the rest zero. */
  lemma PackNext(before: seq<bv8>, after: seq<bv8>, start: nat, bits: nat, codes: seq<bv32>, value: bv32, end: nat)
    requires 1 <= bits <= 8 && FitsIn(value, bits)
    requires HoldsCodes(before, start, bits, codes)
    requires start + |codes| * bits + bits <= end <= 8 * |before|
    requires ZeroBetween(before, start + |codes| * bits, end)
    requires PackedAt(before, after, start + |codes| * bits, bits, value)
    ensures HoldsCodes(after, start, bits, codes + [value])
    ensures ZeroBetween(after, start + (|codes| + 1) * bits, end)
  {
    hide Bit, UnpackCode, Octet, FitsIn, BitAt;
    var offset := start + |codes| * bits;
    Consecutive(|codes|, |codes| + 1, bits);
    UnpackPacked(before, after, offset, bits, value);
    HoldsUntouched(before, after, start, bits, codes);
    var all := codes + [value];
    forall i | 0 <= i < |all|
      ensures (Consecutive(i, |all|, bits); UnpackCode(after, start + i * bits, bits) == all[i])
    {
      Consecutive(i, |all|, bits);
      if i < |codes| {
        assert codes[i] == all[i];
        Consecutive(i, |codes|, bits);
      }
    }
  }

  /** Codes whose bits did not change are still there. */
  lemma HoldsUntouched(before: seq<bv8>, after: seq<bv8>, start: nat, bits: nat, codes: seq<bv32>)
    requires 1 <= bits <= 8 && |before| == |after| && HoldsCodes(before, start, bits, codes)
    requires forall k: nat :: start <= k < start + |codes| * bits ==> BitAt(after, k) == BitAt(before, k)
    ensures HoldsCodes(after, start, bits, codes)
  {
    hide UnpackCode, BitAt;
    forall i | 0 <= i < |codes|
      ensures (Consecutive(i, |codes|, bits); UnpackCode(after, start + i * bits, bits) == codes[i])
    {
      Consecutive(i, |codes|, bits);
      UnpackLocal(before, after, start + i * bits, bits);
    }
  }
}
