/** Byte strings, and the fixed-width integer encodings the file formats use. */
module Bytes {

  type Byte = b: int | 0 <= b < 256
  type Bytes = seq<Byte>

  function Power256(width: nat): (p: nat)
    ensures p > 0
  {
    if width == 0 then 1 else 256 * Power256(width - 1)
  }

  /** The `width` low-order bytes of `n`, least significant first. */
  function LittleEndian(n: nat, width: nat): (b: Bytes)
    ensures |b| == width
  {
    if width == 0 then [] else [n % 256] + LittleEndian(n / 256, width - 1)
  }

  function FromLittleEndian(b: Bytes): nat {
    if |b| == 0 then 0 else b[0] + 256 * FromLittleEndian(b[1..])
  }

  /** The `width` low-order bytes of `n`, most significant first. */
  function BigEndian(n: nat, width: nat): (b: Bytes)
    ensures |b| == width
  {
    if width == 0 then [] else BigEndian(n / 256, width - 1) + [n % 256]
  }

  /** Division by 256 is the byte shift the encoders use. */
  lemma DivideTwice(n: nat, a: nat, b: nat)
    requires a > 0 && b > 0
    ensures a * b > 0
    ensures n / a / b == n / (a * b)
  {
    var q, r := n / a / b, (n / a) % b;
    assert n == a * (n / a) + n % a;
    assert n / a == b * q + r;
    assert n == a * (b * q + r) + n % a;
    assert a * (b * q + r) == (a * b) * q + a * r by { Distribute(a, b, q, r); }
    assert a * r <= a * (b - 1) by { Monotone(a, r, b - 1); }
    assert a * (b - 1) == a * b - a by { Distribute(a, 1, b, -1); }
    DivideUnique(n, a * b, q, a * r + n % a);
  }

  lemma Distribute(a: int, b: int, q: int, r: int)
    ensures a * (b * q + r) == (a * b) * q + a * r
  {
    assert a * (b * q + r) == a * (b * q) + a * r;
    assert a * (b * q) == (a * b) * q;
  }

  lemma Monotone(a: nat, x: int, y: int)
    requires x <= y
    ensures a * x <= a * y
  {
  }

  lemma DivideUnique(n: int, d: int, q: int, r: int)
    requires d > 0 && n == d * q + r && 0 <= r < d
    ensures n / d == q
  {
    var q', r' := n / d, n % d;
    assert n == d * q' + r';
    assert d * (q - q') == r' - r;
    if q > q' {
      Monotone(d, 1, q - q');
    } else if q < q' {
      Monotone(d, 1, q' - q);
    }
  }

  lemma {:induction false} LittleEndianAt(n: nat, width: nat, i: nat)
    requires i < width
    ensures LittleEndian(n, width)[i] == n / Power256(i) % 256
  {
    if i > 0 {
      LittleEndianAt(n / 256, width - 1, i - 1);
      DivideTwice(n, 256, Power256(i - 1));
    }
  }

  lemma {:induction false} BigEndianAt(n: nat, width: nat, i: nat)
    requires i < width
    ensures BigEndian(n, width)[i] == n / Power256(width - 1 - i) % 256
  {
    if i < width - 1 {
      BigEndianAt(n / 256, width - 1, i);
      DivideTwice(n, 256, Power256(width - 2 - i));
    }
  }

  /** What fits in `width` bytes is read back unchanged. */
  lemma {:induction false} LittleEndianRoundTrip(n: nat, width: nat)
    requires n < Power256(width)
    ensures FromLittleEndian(LittleEndian(n, width)) == n
  {
    if width > 0 {
      LittleEndianRoundTrip(n / 256, width - 1);
      assert LittleEndian(n, width)[1..] == LittleEndian(n / 256, width - 1);
    }
  }

  /** A 32-bit number's bytes count ones, 256s, 65536s and so on, lowest first. */
  lemma FourBytes(b: Bytes)
    requires |b| == 4
    ensures FromLittleEndian(b)
            == (b[0] as int) + 0x100 * (b[1] as int) + 0x1_0000 * (b[2] as int) + 0x100_0000 * (b[3] as int)
  {
    OneByteMore(b);
    OneByteMore(b[1..]);
    OneByteMore(b[2..]);
    OneByteMore(b[3..]);
  }

  lemma OneByteMore(b: Bytes)
    requires |b| > 0
    ensures FromLittleEndian(b) == b[0] + 256 * FromLittleEndian(b[1..])
    ensures |b| == 1 ==> FromLittleEndian(b) == b[0]
    ensures |b| > 1 ==> b[1..][0] == b[1] && b[1..][1..] == b[2..]
  {
  }

  /** And a 64-bit number's are those of its two halves. */
  lemma EightBytes(b: Bytes)
    requires |b| == 8
    ensures FromLittleEndian(b) == FromLittleEndian(b[..4]) + 0x1_0000_0000 * FromLittleEndian(b[4..])
  {
    FourThenFour(b[..4], b[4..]);
    assert b == b[..4] + b[4..];
  }

  lemma FourThenFour(a: Bytes, c: Bytes)
    requires |a| == 4
    ensures FromLittleEndian(a + c) == FromLittleEndian(a) + 0x1_0000_0000 * FromLittleEndian(c)
  {
    FourBytes(a);
    var b := a + c;
    OneByteMore(b);
    OneByteMore(b[1..]);
    OneByteMore(b[2..]);
    OneByteMore(b[3..]);
    assert b[1..][1..] == b[2..] && b[2..][1..] == b[3..] && b[3..][1..] == c;
  }

  /** Every byte string is the encoding of the number it decodes to, so decoding is injective. */
  lemma {:induction false} FromLittleEndianRoundTrip(b: Bytes)
    ensures FromLittleEndian(b) < Power256(|b|)
    ensures LittleEndian(FromLittleEndian(b), |b|) == b
  {
    if |b| > 0 {
      FromLittleEndianRoundTrip(b[1..]);
      LowestByte(b[0], FromLittleEndian(b[1..]));
      assert b == [b[0]] + b[1..];
    }
  }

  lemma LowestByte(b: Byte, higher: nat)
    ensures (b + 256 * higher) % 256 == b && (b + 256 * higher) / 256 == higher
  {
  }

  // ---------- a byte as eight bits ----------

  lemma NextOctet(b: bv8)
    requires b != 255
    ensures (b + 1) as int == b as int + 1
  {
  }

  lemma LastOctet(b: bv8)
    requires b as int < 255
    ensures b != 255
  {
  }

  lemma OctetRoundTrip(b: bv8)
    ensures (b as int) as bv8 == b
  {
  }

  lemma {:induction false} SomeOctet(n: nat) returns (b: bv8)
    requires n < 256
    ensures b as int == n
  {
    if n == 0 {
      b := 0;
    } else {
      var below := SomeOctet(n - 1);
      LastOctet(below);
      NextOctet(below);
      b := below + 1;
    }
  }

  lemma ByteRoundTrip(n: nat)
    requires n < 256
    ensures (n as bv8) as int == n
  {
    var b := SomeOctet(n);
    OctetRoundTrip(b);
  }
}
