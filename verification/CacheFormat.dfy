/**
 * The integrity-bound vector cache: a fixed header, the model's fingerprint, then one row of
 * 32-bit floats per non-empty source line.
 */
module CacheFormat {
  import opened Bytes
  import opened Outcomes

  const MAGIC_V1: Bytes := [76, 69, 65, 78, 78, 66, 67, 49]
  const MAGIC_V2: Bytes := [76, 69, 65, 78, 78, 66, 67, 50]
  const FIXED: nat := 64
  const MAX_FINGERPRINT: nat := 16 * 1024 * 1024

  datatype Metadata = Metadata(dimension: nat, count: nat, fingerprint: Bytes, sourceSize: nat, sourceDigest: Bytes)

  datatype ReadError = BadMagic | LegacyVersion | TruncatedHeader | NotPositive | FingerprintTooLong
                     | TruncatedFingerprint | LengthMismatch

  /** The fields fit their widths; the reader asks no more of the fingerprint. */
  predicate Fits(m: Metadata) {
    && 0 < m.dimension < Power256(4) && 0 < m.count < Power256(8)
    && |m.fingerprint| <= MAX_FINGERPRINT && m.sourceSize < Power256(8) && |m.sourceDigest| == 32
  }

  /** What the writer accepts: also a non-empty fingerprint. */
  predicate Writable(m: Metadata) {
    Fits(m) && |m.fingerprint| > 0
  }

  function Header(m: Metadata): (h: Bytes)
    ensures |h| == 32 + |m.sourceDigest| + |m.fingerprint|
  {
    MAGIC_V2 + LittleEndian(m.dimension, 4) + LittleEndian(m.count, 8) + LittleEndian(|m.fingerprint|, 4)
    + LittleEndian(m.sourceSize, 8) + m.sourceDigest + m.fingerprint
  }

  function PayloadSize(m: Metadata): nat {
    m.count * m.dimension * 4
  }

  /** The reader's complete structural check. */
  function ReadCache(file: Bytes): (r: Result<Metadata, ReadError>) {
    if |file| < 8 || (file[..8] != MAGIC_V1 && file[..8] != MAGIC_V2) then Err(BadMagic)
    else if file[..8] == MAGIC_V1 then Err(LegacyVersion)
    else if |file| < FIXED then Err(TruncatedHeader)
    else
      var dimension := FromLittleEndian(file[8..12]);
      var count := FromLittleEndian(file[12..20]);
      var fingerprintSize := FromLittleEndian(file[20..24]);
      var sourceSize := FromLittleEndian(file[24..32]);
      if dimension == 0 || count == 0 then Err(NotPositive)
      else if fingerprintSize > MAX_FINGERPRINT then Err(FingerprintTooLong)
      else if |file| < FIXED + fingerprintSize then Err(TruncatedFingerprint)
      else
        var m := Metadata(dimension, count, file[64..64 + fingerprintSize], sourceSize, file[32..64]);
        if |file| != FIXED + fingerprintSize + PayloadSize(m) then Err(LengthMismatch) else Ok(m)
  }

  lemma HeaderParts(m: Metadata, rest: Bytes)
    requires |m.sourceDigest| == 32
    ensures var f := Header(m) + rest;
            && |f| >= FIXED
            && f[..8] == MAGIC_V2 && f[8..12] == LittleEndian(m.dimension, 4)
            && f[12..20] == LittleEndian(m.count, 8) && f[20..24] == LittleEndian(|m.fingerprint|, 4)
            && f[24..32] == LittleEndian(m.sourceSize, 8) && f[32..64] == m.sourceDigest
            && |f| >= FIXED + |m.fingerprint| && f[64..64 + |m.fingerprint|] == m.fingerprint
            && f[64 + |m.fingerprint|..] == rest
  {
    hide LittleEndian;
  }

  /** Each header field at its place, for a file of the announced length; what is read off is the width of a row. */
  predicate HeaderAt(file: Bytes, count: nat, fingerprint: Bytes, sourceSize: nat, sourceDigest: Bytes) {
    && |file| >= 64 + |fingerprint| && 0 < count && |fingerprint| <= 16 * 1024 * 1024
    && file[..8] == [76, 69, 65, 78, 78, 66, 67, 50]
    && FromLittleEndian(file[8..12]) > 0
    && FromLittleEndian(file[12..20]) == count
    && FromLittleEndian(file[20..24]) == |fingerprint|
    && FromLittleEndian(file[24..32]) == sourceSize
    && file[32..64] == sourceDigest
    && file[64..64 + |fingerprint|] == fingerprint
    && |file| == 64 + |fingerprint| + count * FromLittleEndian(file[8..12]) * 4
  }

  /** The structural check passes, with these fields, exactly when they are where the format puts them. */
  lemma ReadIsHeaderAt(file: Bytes, count: nat, fingerprint: Bytes, sourceSize: nat, sourceDigest: Bytes)
    ensures HeaderAt(file, count, fingerprint, sourceSize, sourceDigest) <==>
              && ReadCache(file).Ok? && ReadCache(file).value.count == count
              && ReadCache(file).value.fingerprint == fingerprint && ReadCache(file).value.sourceSize == sourceSize
              && ReadCache(file).value.sourceDigest == sourceDigest
  {
    hide FromLittleEndian;
  }

  /** What the header and a payload of the right length say is read back. */
  lemma WrittenReadsBack(m: Metadata, payload: Bytes)
    requires Fits(m) && |payload| == PayloadSize(m)
    ensures ReadCache(Header(m) + payload) == Ok(m)
  {
    HeaderParts(m, payload);
    LittleEndianRoundTrip(m.dimension, 4);
    LittleEndianRoundTrip(m.count, 8);
    SmallFingerprint(|m.fingerprint|);
    LittleEndianRoundTrip(|m.fingerprint|, 4);
    LittleEndianRoundTrip(m.sourceSize, 8);
    hide LittleEndian, FromLittleEndian, Header, PayloadSize;
  }

  lemma SmallFingerprint(n: nat)
    requires n <= MAX_FINGERPRINT
    ensures n < Power256(4)
  {
    assert Power256(4) == 0x1_0000_0000;
  }

  /** Whatever the reader accepts is a header followed by exactly the rows it announces. */
  lemma AcceptedIsWritten(file: Bytes)
    requires ReadCache(file).Ok?
    ensures var m := ReadCache(file).value;
            && Fits(m) && |Header(m)| <= |file| && |file| - |Header(m)| == PayloadSize(m)
            && file == Header(m) + file[|Header(m)|..]
  {
    hide Header, PayloadSize, FromLittleEndian;
    var m := ReadCache(file).value;
    FieldsFit(file);
    Reassembled(file, m);
  }

  lemma FieldsFit(file: Bytes)
    requires |file| >= FIXED
    ensures FromLittleEndian(file[8..12]) < Power256(4) && FromLittleEndian(file[12..20]) < Power256(8)
    ensures FromLittleEndian(file[20..24]) < Power256(4) && FromLittleEndian(file[24..32]) < Power256(8)
  {
    FromLittleEndianRoundTrip(file[8..12]);
    FromLittleEndianRoundTrip(file[12..20]);
    FromLittleEndianRoundTrip(file[20..24]);
    FromLittleEndianRoundTrip(file[24..32]);
    hide LittleEndian, FromLittleEndian, Power256;
  }

  lemma Reassembled(file: Bytes, m: Metadata)
    requires |file| >= FIXED + |m.fingerprint| && file[..8] == MAGIC_V2
    requires m.dimension == FromLittleEndian(file[8..12]) && m.count == FromLittleEndian(file[12..20])
    requires |m.fingerprint| == FromLittleEndian(file[20..24]) && m.sourceSize == FromLittleEndian(file[24..32])
    requires m.sourceDigest == file[32..64] && m.fingerprint == file[64..64 + |m.fingerprint|]
    ensures |Header(m)| <= |file| && file == Header(m) + file[|Header(m)|..]
  {
    FromLittleEndianRoundTrip(file[8..12]);
    FromLittleEndianRoundTrip(file[12..20]);
    FromLittleEndianRoundTrip(file[20..24]);
    FromLittleEndianRoundTrip(file[24..32]);
    hide LittleEndian, FromLittleEndian, Power256;
    var n := |m.fingerprint|;
    Pieces(file, n);
    assert Header(m) == file[..8] + file[8..12] + file[12..20] + file[20..24] + file[24..32] + file[32..64]
                        + file[64..64 + n];
  }

  lemma Pieces(file: Bytes, n: nat)
    requires |file| >= 64 + n
    ensures file == file[..8] + file[8..12] + file[12..20] + file[20..24] + file[24..32] + file[32..64]
                    + file[64..64 + n] + file[64 + n..]
  {
  }

  /** The reader accepts exactly a fitting header with a payload of the announced length. */
  lemma ReadsExactly(file: Bytes, m: Metadata)
    ensures ReadCache(file) == Ok(m) <==>
            Fits(m) && Header(m) <= file && |file| - |Header(m)| == PayloadSize(m)
  {
    hide Header, ReadCache, PayloadSize;
    if ReadCache(file) == Ok(m) {
      AcceptedIsWritten(file);
    }
    if Fits(m) && Header(m) <= file && |file| - |Header(m)| == PayloadSize(m) {
      WrittenReadsBack(m, file[|Header(m)|..]);
      assert file == Header(m) + file[|Header(m)|..];
    }
  }
}
