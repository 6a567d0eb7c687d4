/** The document store's file byte by byte: what stands at which place, for any file and for a written corpus. */
module StoreLayout {
  import opened Bytes
  import opened Sha256
  import Crc32c

  /** The little-endian number in `width` bytes. */
  function NumberAt(file: Bytes, at: nat, width: nat): nat
    requires at + width <= |file|
  {
    FromLittleEndian(file[at..at + width])
  }

  // ---------- the checks on a file, each on top of the ones before ----------

  predicate HasMagic(file: Bytes) {
    |file| >= 8 && file[..8] == [76, 69, 65, 78, 68, 67, 48, 50]
  }

  predicate HasVersion(file: Bytes) {
    HasMagic(file) && |file| >= 12 && NumberAt(file, 8, 4) == 2
  }

  predicate HasIdentity(file: Bytes) {
    HasVersion(file) && |file| >= 44 && exists i :: 12 <= i < 44 && file[i] != 0
  }

  predicate HeaderSealed(file: Bytes) {
    HasIdentity(file) && |file| >= 84 && Hash(file[..52]) == file[52..84]
  }

  function Count(file: Bytes): nat
    requires |file| >= 52
  {
    NumberAt(file, 44, 8)
  }

  predicate TablesFit(file: Bytes) {
    HeaderSealed(file) && 124 + 12 * Count(file) <= |file|
  }

  predicate TablesMeasurable(file: Bytes) {
    TablesFit(file) && 92 + 12 * Count(file) <= 0x1fff_ffff_ffff_ffff
  }

  predicate TablesSealed(file: Bytes) {
    && TablesMeasurable(file)
    && var end := 92 + 12 * Count(file);
       Hash(file[..end]) == file[end..end + 32]
  }

  function OffsetAt(file: Bytes, i: nat): nat
    requires |file| >= 52 && i <= Count(file) && 92 + 12 * Count(file) <= |file|
  {
    NumberAt(file, 84 + 8 * i, 8)
  }

  function ChecksumAt(file: Bytes, i: nat): nat
    requires |file| >= 52 && i < Count(file) && 92 + 12 * Count(file) <= |file|
  {
    NumberAt(file, 92 + 8 * Count(file) + 4 * i, 4)
  }

  predicate StartsAtZero(file: Bytes) {
    TablesSealed(file) && OffsetAt(file, 0) == 0
  }

  predicate OffsetsRise(file: Bytes) {
    StartsAtZero(file) && forall i :: 0 < i <= Count(file) ==> OffsetAt(file, i - 1) <= OffsetAt(file, i)
  }

  predicate WellFormed(file: Bytes) {
    OffsetsRise(file) && OffsetAt(file, Count(file)) == |file| - (124 + 12 * Count(file))
  }

  // ---------- a written corpus ----------

  /** Document i: its begin and end in the offset table, its checksum, and its bytes in the payload. */
  predicate DocumentAt(file: Bytes, documents: seq<Bytes>, i: nat)
    requires i < |documents| && |file| >= 52 && Count(file) == |documents| && 124 + 12 * |documents| <= |file|
  {
    var begin, payload := OffsetAt(file, i), 124 + 12 * |documents|;
    && OffsetAt(file, i + 1) == begin + |documents[i]|
    && ChecksumAt(file, i) == Crc32c.Crc(documents[i]) as int
    && payload + begin + |documents[i]| <= |file|
    && file[payload + begin..payload + begin + |documents[i]|] == documents[i]
  }

  predicate HoldsCorpus(file: Bytes, documents: seq<Bytes>, identity: Bytes) {
    && WellFormed(file) && file[12..44] == identity && Count(file) == |documents|
    && forall i :: 0 <= i < |documents| ==> DocumentAt(file, documents, i)
  }
}
