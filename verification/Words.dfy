/** Tables of fixed-width little-endian integers, and the loops that write and read them. */
module Words {
  import opened Bytes
  import opened Sequences

  function EncodeWords(values: seq<nat>, width: nat): (b: Bytes)
    ensures |b| == width * |values|
    decreases |values|
  {
    if |values| == 0 then []
    else
      NextProduct(width, |values|);
      LittleEndian(values[0], width) + EncodeWords(values[1..], width)
  }

  function DecodeWords(b: Bytes, width: nat): seq<nat>
    requires width > 0
    decreases |b|
  {
    if |b| < width then [] else [FromLittleEndian(b[..width])] + DecodeWords(b[width..], width)
  }

  lemma NextProduct(width: nat, n: nat)
    requires n > 0
    ensures width * n == width + width * (n - 1)
  {
  }

  predicate AllBelow(values: seq<nat>, bound: nat) {
    forall i :: 0 <= i < |values| ==> values[i] < bound
  }

  lemma {:induction false} DecodeEncoded(values: seq<nat>, width: nat)
    requires width > 0 && AllBelow(values, Power256(width))
    ensures DecodeWords(EncodeWords(values, width), width) == values
    decreases |values|
  {
    if |values| > 0 {
      var first, rest := LittleEndian(values[0], width), EncodeWords(values[1..], width);
      NextProduct(width, |values|);
      LittleEndianRoundTrip(values[0], width);
      DecodeEncoded(values[1..], width);
      assert (first + rest)[..width] == first && (first + rest)[width..] == rest;
      assert [values[0]] + values[1..] == values;
    }
  }

  lemma {:induction false} EncodeDecoded(b: Bytes, width: nat, count: nat)
    requires width > 0 && |b| == width * count
    ensures |DecodeWords(b, width)| == count
    ensures AllBelow(DecodeWords(b, width), Power256(width))
    ensures EncodeWords(DecodeWords(b, width), width) == b
    decreases count
  {
    if count > 0 {
      NextProduct(width, count);
      assert width * (count - 1) >= 0;
      EncodeDecoded(b[width..], width, count - 1);
      FromLittleEndianRoundTrip(b[..width]);
      var rest := DecodeWords(b[width..], width);
      assert ([FromLittleEndian(b[..width])] + rest)[1..] == rest;
      assert b == b[..width] + b[width..];
    }
  }

  lemma {:induction false} EncodeWordsConcat(a: seq<nat>, b: seq<nat>, width: nat)
    ensures EncodeWords(a + b, width) == EncodeWords(a, width) + EncodeWords(b, width)
    decreases |a|
  {
    if |a| == 0 {
      assert a + b == b;
    } else {
      EncodeWordsConcat(a[1..], b, width);
      assert (a + b)[1..] == a[1..] + b;
    }
  }

  /** The k-th integer is in the k-th `width` bytes. */
  lemma {:induction false} EncodedAt(values: seq<nat>, width: nat, k: nat, at: nat)
    requires k < |values| && at == width * k
    ensures at + width <= |EncodeWords(values, width)|
    ensures EncodeWords(values, width)[at..at + width] == LittleEndian(values[k], width)
    decreases |values|
  {
    hide LittleEndian;
    var first, rest := LittleEndian(values[0], width), EncodeWords(values[1..], width);
    assert EncodeWords(values, width) == first + rest;
    if k > 0 {
      NextProduct(width, k);
      NonNegativeProduct(width, k - 1);
      EncodedAt(values[1..], width, k - 1, at - width);
      assert (first + rest)[width..] == rest;
      SliceOfRest(first + rest, width, at - width, at);
    }
  }

  lemma NonNegativeProduct(width: nat, n: nat)
    ensures width * n >= 0
  {
  }

  lemma EncodeOneWord(value: nat, width: nat)
    ensures EncodeWords([value], width) == LittleEndian(value, width)
  {
    assert EncodeWords([value], width) == LittleEndian(value, width) + EncodeWords([], width);
  }

  lemma DecodeNextWord(b: Bytes, width: nat)
    requires 0 < width <= |b|
    ensures DecodeWords(b, width) == [FromLittleEndian(b[..width])] + DecodeWords(b[width..], width)
  {
  }

  lemma {:induction false} DecodedAt(b: Bytes, width: nat, count: nat, k: nat, at: nat)
    requires width > 0 && |b| == width * count && k < count && at == width * k
    ensures |DecodeWords(b, width)| == count && at + width <= |b|
    ensures DecodeWords(b, width)[k] == FromLittleEndian(b[at..at + width])
    decreases count
  {
    hide FromLittleEndian;
    NextProduct(width, count);
    NonNegativeProduct(width, count - 1);
    EncodeDecoded(b, width, count);
    if k > 0 {
      NextProduct(width, k);
      NonNegativeProduct(width, k - 1);
      DecodedAt(b[width..], width, count - 1, k - 1, at - width);
      SliceOfRest(b, width, at - width, at);
    }
  }

  /** `write_le`: the bytes of `value`, lowest first. */
  method WriteLe(value: nat, width: nat) returns (b: Bytes)
    ensures b == LittleEndian(value, width)
  {
    b := [];
    for i := 0 to width
      invariant b == LittleEndian(value, width)[..i]
    {
      LittleEndianAt(value, width, i);
      b := b + [value / Power256(i) % 256];
    }
  }

  lemma ShiftSum(t: nat, p: nat, v: nat)
    ensures 256 * (t + p * v) == 256 * t + (256 * p) * v
  {
  }

  lemma {:induction false} FromLittleEndianConcat(a: Bytes, b: Bytes)
    ensures FromLittleEndian(a + b) == FromLittleEndian(a) + Power256(|a|) * FromLittleEndian(b)
    decreases |a|
  {
    if |a| == 0 {
      assert a + b == b;
    } else {
      FromLittleEndianConcat(a[1..], b);
      assert (a + b)[1..] == a[1..] + b;
      ShiftSum(FromLittleEndian(a[1..]), Power256(|a| - 1), FromLittleEndian(b));
    }
  }

  /** `read_le`: accumulates one byte at a time; the bytes never overlap. */
  method ReadLe(b: Bytes) returns (value: nat)
    ensures value == FromLittleEndian(b)
  {
    value := 0;
    for i := 0 to |b|
      invariant value == FromLittleEndian(b[..i])
    {
      FromLittleEndianConcat(b[..i], [b[i]]);
      assert b[..i + 1] == b[..i] + [b[i]];
      assert FromLittleEndian([b[i]]) == b[i];
      value := value + Power256(i) * b[i];
    }
    assert b[..|b|] == b;
  }
}
