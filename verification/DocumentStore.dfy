/**
 * The document store: a byte-level writer and reader with offset tables, two
 * digests and per-chunk checksums. Opening accepts exactly the well-formed
 * files and reads back exactly what was written.
 */
module DocumentStore {
  import opened Bytes
  import opened Words
  import opened Outcomes
  import opened Sequences
  import opened Sha256
  import opened StoreLayout
  import Crc32c

  // ---------- the format ----------

  function Ascii(s: string): (b: Bytes)
    ensures |b| == |s|
  {
    seq(|s|, i requires 0 <= i < |s| => s[i] as int % 256)
  }

  /** LEANDC02 */
  const MAGIC: Bytes := [76, 69, 65, 78, 68, 67, 48, 50]
  const VERSION: nat := 2
  const U64: nat := 0x1_0000_0000_0000_0000
  /** The largest std::streamoff, the type in which a stream reports its size. */
  const MAX_OFFSET: nat := 0x7fff_ffff_ffff_ffff

  predicate IsZero(identity: Bytes) {
    forall i :: 0 <= i < |identity| ==> identity[i] == 0
  }

  function CrcOf(document: Bytes): (c: nat)
    ensures c < Power256(4)
  {
    CrcFits(Crc32c.Crc(document));
    Crc32c.Crc(document) as int
  }

  lemma CrcFits(x: bv32)
    ensures 0 <= x as int < Power256(4)
  {
    assert Power256(4) == 0x1_0000_0000;
  }

  /** What a store file records besides the payload. */
  datatype Fields = Fields(identity: Bytes, offsets: seq<nat>, checksums: seq<nat>)

  predicate Monotone(offsets: seq<nat>) {
    forall i :: 0 < i < |offsets| ==> offsets[i - 1] <= offsets[i]
  }

  /** A field set that describes a payload of the given length. */
  predicate Describes(f: Fields, payload: nat) {
    && |f.identity| == 32 && !IsZero(f.identity)
    && |f.offsets| == |f.checksums| + 1 && |f.checksums| < U64
    && f.offsets[0] == 0 && Monotone(f.offsets) && f.offsets[|f.checksums|] == payload
    && AllBelow(f.offsets, Power256(8)) && AllBelow(f.checksums, Power256(4))
  }

  function Header(identity: Bytes, count: nat): Bytes {
    MAGIC + LittleEndian(VERSION, 4) + identity + LittleEndian(count, 8)
  }

  function Metadata(f: Fields): Bytes {
    Sealed(Header(f.identity, |f.checksums|)) + EncodeWords(f.offsets, 8) + EncodeWords(f.checksums, 4)
  }

  /** Bytes followed by their SHA-256. */
  function Sealed(b: Bytes): Bytes {
    b + Hash(b)
  }

  function Encode(f: Fields, payload: Bytes): Bytes {
    Sealed(Metadata(f)) + payload
  }

  // ---------- opening ----------

  datatype OpenError =
    | TruncatedFile
    | NotAStore
    | UnsupportedVersion
    | ZeroIdentity
    | HeaderMismatch
    | MetadataExceedsFile
    | MetadataTooLarge
    | MetadataMismatch
    | InvalidOffsets
    | OffsetsNotMonotonic
    | PayloadMismatch

  /** The checks of `open` in order, over unbounded integers. */
  function Parse(file: Bytes): Result<Fields, OpenError> {
    if |file| < 8 then Err(TruncatedFile)
    else if file[..8] != MAGIC then Err(NotAStore)
    else if |file| < 12 then Err(TruncatedFile)
    else if FromLittleEndian(file[8..12]) != VERSION then Err(UnsupportedVersion)
    else if |file| < 44 then Err(TruncatedFile)
    else if IsZero(file[12..44]) then Err(ZeroIdentity)
    else if |file| < 84 then Err(TruncatedFile)
    else if Hash(file[..52]) != file[52..84] then Err(HeaderMismatch)
    else ParseTable(file, file[12..44], FromLittleEndian(file[44..52]))
  }

  function ParseTable(file: Bytes, identity: Bytes, count: nat): Result<Fields, OpenError>
    requires |file| >= 84
  {
    var metadata := 92 + 12 * count;
    if metadata + 32 > |file| then Err(MetadataExceedsFile)
    else if metadata > MAX_U64 / 8 then Err(MetadataTooLarge)
    else if Hash(file[..metadata]) != file[metadata..metadata + 32] then Err(MetadataMismatch)
    else ParseEntries(file, identity, count)
  }

  function ParseEntries(file: Bytes, identity: Bytes, count: nat): Result<Fields, OpenError>
    requires |file| >= 124 + 12 * count
  {
    var offsets := DecodeWords(file[84..92 + 8 * count], 8);
    var checksums := DecodeWords(file[92 + 8 * count..92 + 12 * count], 4);
    if |offsets| == 0 || offsets[0] != 0 then Err(InvalidOffsets)
    else if !Monotone(offsets) then Err(OffsetsNotMonotonic)
    else if offsets[|offsets| - 1] != |file| - (124 + 12 * count) then Err(PayloadMismatch)
    else Ok(Fields(identity, offsets, checksums))
  }

  /** What is wrong with a file, by the places of its bytes. */
  predicate Fails(file: Bytes, error: OpenError) {
    match error
    case TruncatedFile =>
      || |file| < 8 || (HasMagic(file) && |file| < 12) || (HasVersion(file) && |file| < 44)
      || (HasIdentity(file) && |file| < 84)
    case NotAStore => |file| >= 8 && !HasMagic(file)
    case UnsupportedVersion => HasMagic(file) && |file| >= 12 && !HasVersion(file)
    case ZeroIdentity => HasVersion(file) && |file| >= 44 && !HasIdentity(file)
    case HeaderMismatch => HasIdentity(file) && |file| >= 84 && !HeaderSealed(file)
    case MetadataExceedsFile => HeaderSealed(file) && !TablesFit(file)
    case MetadataTooLarge => TablesFit(file) && !TablesMeasurable(file)
    case MetadataMismatch => TablesMeasurable(file) && !TablesSealed(file)
    case InvalidOffsets => TablesSealed(file) && !StartsAtZero(file)
    case OffsetsNotMonotonic => StartsAtZero(file) && !OffsetsRise(file)
    case PayloadMismatch => OffsetsRise(file) && !WellFormed(file)
  }

  /** The fields are what stands at their places. */
  predicate ReadOff(file: Bytes, f: Fields)
    requires WellFormed(file)
  {
    && f.identity == file[12..44] && |f.checksums| == Count(file) && |f.offsets| == Count(file) + 1
    && (forall i :: 0 <= i <= Count(file) ==> f.offsets[i] == OffsetAt(file, i))
    && forall i :: 0 <= i < Count(file) ==> f.checksums[i] == ChecksumAt(file, i)
  }

  /** The checks of `open` are those on the bytes: they pass for the well-formed files, and each error tells its own. */
  lemma ParseByPlace(file: Bytes)
    ensures Parse(file).Ok? <==> WellFormed(file)
    ensures Parse(file).Ok? ==> ReadOff(file, Parse(file).value)
    ensures Parse(file).Err? ==> Fails(file, Parse(file).error)
  {
    hide Hash, FromLittleEndian, DecodeWords, WellFormed, OffsetsRise, StartsAtZero, ParseEntries;
    if |file| >= 44 {
      assert forall i :: 12 <= i < 44 ==> file[i] == file[12..44][i - 12];
    }
    if TablesSealed(file) {
      EntriesByPlace(file);
    } else {
      NotSealed(file);
    }
  }

  lemma NotSealed(file: Bytes)
    requires !TablesSealed(file)
    ensures !WellFormed(file) && !StartsAtZero(file) && !OffsetsRise(file)
  {
    hide TablesSealed;
  }

  lemma EntriesByPlace(file: Bytes)
    requires TablesSealed(file)
    ensures ParseEntries(file, file[12..44], Count(file)).Ok? <==> WellFormed(file)
    ensures WellFormed(file) ==> ReadOff(file, ParseEntries(file, file[12..44], Count(file)).value)
    ensures ParseEntries(file, file[12..44], Count(file)).Err? ==>
              Fails(file, ParseEntries(file, file[12..44], Count(file)).error)
  {
    hide Hash, FromLittleEndian, DecodeWords, TablesSealed, NumberAt;
    TablesInside(file);
    var n := Count(file);
    var offsets := DecodeWords(file[84..92 + 8 * n], 8);
    var checksums := DecodeWords(file[92 + 8 * n..92 + 12 * n], 4);
    TablesByPlace(file);
    if Monotone(offsets) {
      forall i | 0 < i <= n ensures OffsetAt(file, i - 1) <= OffsetAt(file, i) {
        assert offsets[i - 1] <= offsets[i];
      }
    } else {
      var i :| 0 < i < |offsets| && offsets[i - 1] > offsets[i];
      assert OffsetAt(file, i - 1) > OffsetAt(file, i);
    }
  }

  lemma TablesInside(file: Bytes)
    requires TablesSealed(file)
    ensures |file| >= 124 + 12 * Count(file)
  {
  }

  lemma TablesByPlace(file: Bytes)
    requires |file| >= 52 && |file| >= 124 + 12 * Count(file)
    ensures var n := Count(file);
            var offsets := DecodeWords(file[84..92 + 8 * n], 8);
            var checksums := DecodeWords(file[92 + 8 * n..92 + 12 * n], 4);
            && |offsets| == n + 1 && |checksums| == n
            && (forall i :: 0 <= i <= n ==> offsets[i] == OffsetAt(file, i))
            && forall i :: 0 <= i < n ==> checksums[i] == ChecksumAt(file, i)
  {
    hide FromLittleEndian, DecodeWords, Count, NumberAt;
    var n := Count(file);
    WordsByPlace(file, 84, 8, n + 1);
    WordsByPlace(file, 92 + 8 * n, 4, n);
  }

  lemma WordsByPlace(file: Bytes, at: nat, width: nat, count: nat)
    requires width in {4, 8} && at + width * count <= |file|
    ensures var words := DecodeWords(file[at..at + width * count], width);
            |words| == count && forall i :: 0 <= i < count ==> words[i] == NumberAt(file, at + width * i, width)
  {
    hide FromLittleEndian, DecodeWords;
    var table := file[at..at + width * count];
    EncodeDecoded(table, width, count);
    forall i | 0 <= i < count ensures DecodeWords(table, width)[i] == NumberAt(file, at + width * i, width) {
      DecodedAt(table, width, count, i, width * i);
      SliceOfSlice(file, at, at + width * count, width * i, width * i + width);
    }
  }

  // ---------- opening accepts exactly the well-formed files ----------

  lemma HeaderParts(identity: Bytes, count: nat, rest: Bytes)
    requires |identity| == 32
    ensures var file := Header(identity, count) + rest;
            && |Header(identity, count)| == 52
            && file[..8] == MAGIC && file[8..12] == LittleEndian(VERSION, 4)
            && file[12..44] == identity && file[44..52] == LittleEndian(count, 8)
            && file[..52] == Header(identity, count)
  {
    hide LittleEndian;
    assert |MAGIC| == 8;
  }

  lemma MetadataParts(f: Fields, rest: Bytes)
    requires |f.identity| == 32 && |f.offsets| == |f.checksums| + 1
    ensures var h, n := Header(f.identity, |f.checksums|), |f.checksums|;
            var file := Metadata(f) + rest;
            && |h| == 52 && |Metadata(f)| == 92 + 12 * n
            && file[..52] == h && file[52..84] == Hash(h)
            && file[84..92 + 8 * n] == EncodeWords(f.offsets, 8)
            && file[92 + 8 * n..92 + 12 * n] == EncodeWords(f.checksums, 4)
            && file[..92 + 12 * n] == Metadata(f)
  {
    hide Hash, EncodeWords, LittleEndian;
    HeaderParts(f.identity, |f.checksums|, []);
    Slices(Header(f.identity, |f.checksums|), Hash(Header(f.identity, |f.checksums|)),
      EncodeWords(f.offsets, 8), EncodeWords(f.checksums, 4), rest);
  }

  lemma Slices(a: Bytes, b: Bytes, c: Bytes, d: Bytes, e: Bytes)
    ensures var s := a + b + c + d + e;
            && s[..|a|] == a
            && s[|a|..|a| + |b|] == b
            && s[|a| + |b|..|a| + |b| + |c|] == c
            && s[|a| + |b| + |c|..|a| + |b| + |c| + |d|] == d
            && s[..|a| + |b| + |c| + |d|] == a + b + c + d
  {
  }

  /** Round trip: opening an encoded store gives back every field. */
  lemma ParseEncoded(f: Fields, payload: Bytes)
    requires Describes(f, |payload|) && 92 + 12 * |f.checksums| <= MAX_U64 / 8
    ensures Parse(Encode(f, payload)) == Ok(f)
  {
    hide Hash, EncodeWords, DecodeWords, LittleEndian, FromLittleEndian, Header;
    var file, n := Encode(f, payload), |f.checksums|;
    var m := Metadata(f);
    MetadataParts(f, Hash(m) + payload);
    assert file == m + (Hash(m) + payload);
    HeaderParts(f.identity, n, file[52..]);
    assert file == file[..52] + file[52..];
    VersionDecodes();
    CountDecodes(n);
    EncodedTable(f);
  }

  lemma VersionDecodes()
    ensures FromLittleEndian(LittleEndian(VERSION, 4)) == VERSION
  {
    LittleEndianRoundTrip(VERSION, 4);
  }

  lemma CountDecodes(n: nat)
    requires n < U64
    ensures FromLittleEndian(LittleEndian(n, 8)) == n
  {
    assert Power256(8) == U64;
    LittleEndianRoundTrip(n, 8);
  }

  lemma EncodedTable(f: Fields)
    requires AllBelow(f.offsets, Power256(8)) && AllBelow(f.checksums, Power256(4))
    ensures DecodeWords(EncodeWords(f.offsets, 8), 8) == f.offsets
    ensures DecodeWords(EncodeWords(f.checksums, 4), 4) == f.checksums
  {
    DecodeEncoded(f.offsets, 8);
    DecodeEncoded(f.checksums, 4);
  }

  /** Where the payload of an accepted file begins. */
  function DataOffset(f: Fields): nat {
    92 + 12 * |f.checksums| + 32
  }

  /** Conversely, whatever opens is the encoding of its own fields and payload. */
  lemma AcceptedIsEncoded(file: Bytes)
    requires Parse(file).Ok?
    ensures var f := Parse(file).value;
            && DataOffset(f) <= |file| && DataOffset(f) - 32 <= MAX_U64 / 8
            && Describes(f, |file| - DataOffset(f))
            && file == Encode(f, file[DataOffset(f)..])
  {
    hide Hash, EncodeWords, DecodeWords, LittleEndian, FromLittleEndian, Header;
    var identity, count := file[12..44], FromLittleEndian(file[44..52]);
    var m := 92 + 12 * count;
    ReadHeader(file);
    FromLittleEndianRoundTrip(file[44..52]);
    EncodeDecoded(file[84..92 + 8 * count], 8, count + 1);
    EncodeDecoded(file[92 + 8 * count..m], 4, count);
    var f := Parse(file).value;
    assert U64 == Power256(8);
    assert f == Fields(identity, DecodeWords(file[84..92 + 8 * count], 8), DecodeWords(file[92 + 8 * count..m], 4));
    Reassemble(file, m, count);
    assert file[..m] == Metadata(f);
    assert file == file[..m] + file[m..m + 32] + file[m + 32..];
  }

  lemma ReadHeader(file: Bytes)
    requires |file| >= 52 && file[..8] == MAGIC && FromLittleEndian(file[8..12]) == VERSION
    ensures file[..52] == Header(file[12..44], FromLittleEndian(file[44..52]))
  {
    hide LittleEndian, FromLittleEndian;
    FromLittleEndianRoundTrip(file[8..12]);
    FromLittleEndianRoundTrip(file[44..52]);
    assert file[..52] == file[..8] + file[8..12] + file[12..44] + file[44..52];
  }

  lemma Reassemble(file: Bytes, m: nat, count: nat)
    requires m == 92 + 12 * count <= |file|
    ensures file[..m] == file[..52] + file[52..84] + file[84..92 + 8 * count] + file[92 + 8 * count..m]
  {
  }

  /** Opening accepts exactly the encodings of describable stores whose metadata SHA-256 can measure. */
  lemma OpensIffEncoded(file: Bytes, f: Fields)
    ensures Parse(file) == Ok(f) <==>
      exists payload :: file == Encode(f, payload) && Describes(f, |payload|)
        && 92 + 12 * |f.checksums| <= MAX_U64 / 8
  {
    hide Parse, Encode, Describes;
    if Parse(file) == Ok(f) {
      AcceptedIsEncoded(file);
    }
    if payload :| file == Encode(f, payload) && Describes(f, |payload|) && 92 + 12 * |f.checksums| <= MAX_U64 / 8 {
      ParseEncoded(f, payload);
    }
  }

  // ---------- writing ----------

  function TotalLength(documents: seq<Bytes>): nat {
    if |documents| == 0 then 0 else TotalLength(documents[..|documents| - 1]) + |documents[|documents| - 1]|
  }

  function Concat(documents: seq<Bytes>): (b: Bytes)
    ensures |b| == TotalLength(documents)
  {
    if |documents| == 0 then [] else Concat(documents[..|documents| - 1]) + documents[|documents| - 1]
  }

  function Offsets(documents: seq<Bytes>): (offsets: seq<nat>)
    ensures |offsets| == |documents| + 1
  {
    seq(|documents| + 1, i requires 0 <= i <= |documents| => TotalLength(documents[..i]))
  }

  function Checksums(documents: seq<Bytes>): (checksums: seq<nat>)
    ensures |checksums| == |documents|
  {
    seq(|documents|, i requires 0 <= i < |documents| => CrcOf(documents[i]))
  }

  function StoreOf(documents: seq<Bytes>, identity: Bytes): Fields {
    Fields(identity, Offsets(documents), Checksums(documents))
  }

  lemma StoreShape(documents: seq<Bytes>, identity: Bytes)
    ensures StoreOf(documents, identity).identity == identity
    ensures |StoreOf(documents, identity).offsets| == |documents| + 1
  {
  }

  lemma {:induction false} PrefixLength(documents: seq<Bytes>, i: nat)
    requires i <= |documents|
    ensures TotalLength(documents[..i]) <= TotalLength(documents)
    decreases |documents| - i
  {
    if i < |documents| {
      PrefixStep(documents, i);
      PrefixLength(documents, i + 1);
    } else {
      assert documents[..i] == documents;
    }
  }

  lemma PrefixStep(documents: seq<Bytes>, i: nat)
    requires i < |documents|
    ensures TotalLength(documents[..i + 1]) == TotalLength(documents[..i]) + |documents[i]|
    ensures Concat(documents[..i + 1]) == Concat(documents[..i]) + documents[i]
  {
    assert documents[..i + 1][..i] == documents[..i];
  }

  lemma StoreDescribes(documents: seq<Bytes>, identity: Bytes)
    requires |identity| == 32 && !IsZero(identity)
    requires |documents| < U64 && TotalLength(documents) < U64
    ensures Describes(StoreOf(documents, identity), |Concat(documents)|)
  {
    hide CrcOf;
    var offsets := Offsets(documents);
    assert Power256(8) == U64;
    forall i | 0 <= i < |offsets| ensures offsets[i] < U64 {
      PrefixLength(documents, i);
    }
    forall i | 0 < i < |offsets| ensures offsets[i - 1] <= offsets[i] {
      PrefixStep(documents, i - 1);
    }
    assert documents[..|documents|] == documents;
    forall i | 0 <= i < |documents| ensures Checksums(documents)[i] < Power256(4) {
      assert Checksums(documents)[i] == CrcOf(documents[i]);
    }
  }

  /** Every place of a written store. */
  lemma WrittenByPlace(documents: seq<Bytes>, identity: Bytes)
    requires |identity| == 32 && !IsZero(identity) && |documents| < U64 && TotalLength(documents) < U64
    requires 92 + 12 * |documents| <= MAX_U64 / 8
    ensures HoldsCorpus(Encode(StoreOf(documents, identity), Concat(documents)), documents, identity)
  {
    hide Encode, Parse, WellFormed, Describes, CrcOf, Concat, StoreOf, DocumentAt, IsZero, TotalLength;
    var f, payload := StoreOf(documents, identity), Concat(documents);
    var file := Encode(f, payload);
    StoreDescribes(documents, identity);
    FieldsOf(documents, identity);
    ParseEncoded(f, payload);
    ParseByPlace(file);
    AcceptedIsEncoded(file);
    PayloadOf(f, payload);
    WellFormedSize(file);
    forall i | 0 <= i < |documents| ensures DocumentAt(file, documents, i) {
      DocumentByPlace(file, documents, identity, i);
    }
  }

  lemma FieldsOf(documents: seq<Bytes>, identity: Bytes)
    ensures StoreOf(documents, identity).identity == identity
    ensures |StoreOf(documents, identity).checksums| == |documents|
  {
  }

  lemma PayloadOf(f: Fields, payload: Bytes)
    requires |f.identity| == 32 && |f.offsets| == |f.checksums| + 1
    ensures var file := Encode(f, payload);
            |file| == DataOffset(f) + |payload| && file[DataOffset(f)..] == payload
  {
    hide Hash, EncodeWords, LittleEndian;
    MetadataParts(f, []);
  }

  lemma WellFormedSize(file: Bytes)
    requires WellFormed(file)
    ensures |file| >= 124 + 12 * Count(file)
  {
  }

  lemma DocumentByPlace(file: Bytes, documents: seq<Bytes>, identity: Bytes, i: nat)
    requires WellFormed(file) && ReadOff(file, StoreOf(documents, identity)) && i < |documents|
    requires Count(file) == |documents| && |file| >= 124 + 12 * |documents|
    requires file[124 + 12 * |documents|..] == Concat(documents)
    ensures DocumentAt(file, documents, i)
  {
    hide WellFormed, Concat, TotalLength, Count, OffsetAt, ChecksumAt, Crc32c.Crc, StoreOf;
    EntriesFor(documents, identity, i);
    PartOfConcat(documents, i);
    var head, begin := 124 + 12 * |documents|, TotalLength(documents[..i]);
    SliceOfSlice(file, head, |file|, begin, begin + |documents[i]|);
    assert file[head..|file|] == Concat(documents);
  }

  lemma EntriesFor(documents: seq<Bytes>, identity: Bytes, i: nat)
    requires i < |documents|
    ensures var f := StoreOf(documents, identity);
            && |f.offsets| == |documents| + 1 && |f.checksums| == |documents|
            && f.offsets[i] == TotalLength(documents[..i]) && f.offsets[i + 1] == f.offsets[i] + |documents[i]|
            && f.checksums[i] == Crc32c.Crc(documents[i]) as int
  {
    hide Crc32c.Crc, TotalLength, Concat;
    PrefixStep(documents, i);
  }

  /** A document's bytes in the payload. */
  lemma PartOfConcat(documents: seq<Bytes>, i: nat)
    requires i < |documents|
    ensures var begin := TotalLength(documents[..i]);
            && begin + |documents[i]| <= |Concat(documents)|
            && Concat(documents)[begin..begin + |documents[i]|] == documents[i]
  {
    hide TotalLength, Concat;
    PrefixStep(documents, i);
    PrefixOf(documents, i + 1);
    var begin, end := TotalLength(documents[..i]), TotalLength(documents[..i + 1]);
    assert Concat(documents[..i + 1]) == Concat(documents)[..end];
    assert Concat(documents)[begin..end] == Concat(documents)[..end][begin..];
  }

  lemma {:induction false} PrefixOf(documents: seq<Bytes>, i: nat)
    requires i <= |documents|
    ensures Concat(documents[..i]) <= Concat(documents)
    decreases |documents| - i
  {
    if i < |documents| {
      PrefixStep(documents, i);
      PrefixOf(documents, i + 1);
    } else {
      assert documents[..i] == documents;
    }
  }

  datatype WriteError = ZeroPairIdentity | AddressSpaceExceeded | TooLargeToHash

  /** The documents are in memory, where a string object occupies at least 24 bytes. */
  predicate Addressable(documents: seq<Bytes>) {
    24 * |documents| < U64
  }

  method Write(documents: seq<Bytes>, identity: Bytes) returns (r: Result<Bytes, WriteError>)
    requires |identity| == 32 && Addressable(documents)
    ensures r == if IsZero(identity) then Err(ZeroPairIdentity)
                 else if TotalLength(documents) >= U64 then Err(AddressSpaceExceeded)
                 else if 92 + 12 * |documents| > MAX_U64 / 8 then Err(TooLargeToHash)
                 else Ok(Encode(StoreOf(documents, identity), Concat(documents)))
    ensures r.Ok? ==> HoldsCorpus(r.value, documents, identity)
  {
    hide Hash, LittleEndian, EncodeWords, CrcOf, HoldsCorpus;
    if IsZero(identity) {
      return Err(ZeroPairIdentity);
    }
    var checksums := ChecksumAll(documents);
    var version := WriteLe(VERSION, 4);
    var count := WriteLe(|documents|, 8);
    var output := MAGIC + version + identity + count;
    HeaderParts(identity, |documents|, []);
    var header := HashPrefix(output, |output|);
    assert output[..|output|] == output;
    output := output + header.value;
    ghost var sealed := output;
    var table := OffsetTable(documents);
    if table.Err? {
      return Err(AddressSpaceExceeded);
    }
    output := output + table.value;
    for i := 0 to |checksums|
      modifies {}
      invariant output == sealed + table.value + EncodeWords(checksums[..i], 4)
    {
      var word := WriteLe(checksums[i], 4);
      EncodeOneWord(checksums[i], 4);
      EncodeWordsConcat(checksums[..i], [checksums[i]], 4);
      assert checksums[..i + 1] == checksums[..i] + [checksums[i]];
      output := output + word;
    }
    assert checksums[..|checksums|] == checksums;
    assert output == Metadata(StoreOf(documents, identity));
    MetadataParts(StoreOf(documents, identity), []);
    var digest := HashPrefix(output, |output|);
    assert output[..|output|] == output;
    if digest.Err? {
      return Err(TooLargeToHash);
    }
    var payload := AppendAll(documents);
    WrittenByPlace(documents, identity);
    r := Ok(output + digest.value + payload);
  }

  method ChecksumAll(documents: seq<Bytes>) returns (checksums: seq<nat>)
    ensures checksums == Checksums(documents)
  {
    hide Crc32c.Crc;
    checksums := [];
    for i := 0 to |documents|
      modifies {}
      invariant checksums == Checksums(documents)[..i]
    {
      var checksum := Crc32c.Checksum(documents[i]);
      CrcFits(checksum);
      checksums := checksums + [checksum as int];
    }
  }

  method OffsetTable(documents: seq<Bytes>) returns (r: Result<Bytes, ()>)
    ensures r == if TotalLength(documents) >= U64 then Err(()) else Ok(EncodeWords(Offsets(documents), 8))
  {
    hide LittleEndian, EncodeWords;
    var offset: nat := 0;
    var output := WriteLe(offset, 8);
    EncodeOneWord(0, 8);
    assert Offsets(documents)[..1] == [0];
    for i := 0 to |documents|
      invariant offset == TotalLength(documents[..i]) < U64
      invariant output == EncodeWords(Offsets(documents)[..i + 1], 8)
    {
      PrefixStep(documents, i);
      if |documents[i]| > MAX_U64 - offset {
        PrefixLength(documents, i + 1);
        return Err(());
      }
      offset := offset + |documents[i]|;
      var word := WriteLe(offset, 8);
      EncodeOneWord(offset, 8);
      EncodeWordsConcat(Offsets(documents)[..i + 1], [offset], 8);
      assert Offsets(documents)[..i + 2] == Offsets(documents)[..i + 1] + [offset];
      output := output + word;
    }
    assert documents[..|documents|] == documents;
    assert Offsets(documents)[..|documents| + 1] == Offsets(documents);
    r := Ok(output);
  }

  method AppendAll(documents: seq<Bytes>) returns (payload: Bytes)
    ensures payload == Concat(documents)
  {
    payload := [];
    for i := 0 to |documents|
      invariant payload == Concat(documents[..i])
    {
      PrefixStep(documents, i);
      payload := payload + documents[i];
    }
    assert documents[..|documents|] == documents;
  }

  // ---------- reading ----------

  datatype ReadError = IdOutOfRange | RangeExceedsFile | RangeExceedsStream | ChecksumMismatch | TruncatedRead

  /** Unsigned 64-bit arithmetic, as the reader performs it. */
  function Add64(a: nat, b: nat): nat {
    (a + b) % U64
  }

  function Mul64(a: nat, b: nat): nat {
    (a * b) % U64
  }

  function Sub64(a: nat, b: nat): nat {
    (a - b) % U64
  }

  /** An input stream over the bytes of an open file. */
  class Input {
    const data: Bytes
    var position: nat

    constructor (data: Bytes)
      ensures this.data == data && position == 0
    {
      this.data := data;
      position := 0;
    }

    method Seek(target: nat)
      modifies this
      ensures position == target
    {
      position := target;
    }

    method ReadBytes(size: nat) returns (r: Option<Bytes>)
      modifies this
      ensures old(position) + size <= |data| ==>
        r == Some(data[old(position)..old(position) + size]) && position == old(position) + size
      ensures old(position) + size > |data| ==> r == None
    {
      if position > |data| || size > |data| - position {
        return None;
      }
      r := Some(data[position..position + size]);
      position := position + size;
    }
  }

  /** An opened store: the stream it reads from and the tables `Open` filled in. */
  class Store {
    const stream: Input
    var pairIdentity: Bytes
    var offsets: seq<nat>
    var checksums: seq<nat>
    var dataOffset: nat
    var fileSize: nat

    constructor (stream: Input)
      ensures this.stream == stream
    {
      this.stream := stream;
    }

    function Recorded(): Fields
      reads this
    {
      Fields(pairIdentity, offsets, checksums)
    }

    /** The tables describe exactly the bytes that follow them in the file. */
    ghost predicate Valid()
      reads this
    {
      && dataOffset <= fileSize == |stream.data| <= MAX_OFFSET
      && Describes(Recorded(), fileSize - dataOffset)
    }

    function Payload(): (payload: Bytes)
      requires Valid()
      reads this
      ensures Describes(Recorded(), |payload|)
    {
      stream.data[dataOffset..]
    }

    function Size(): nat
      reads this
    {
      if |offsets| == 0 then 0 else |offsets| - 1
    }

    function RawBytes(): nat
      reads this
    {
      if |offsets| == 0 then 0 else offsets[|offsets| - 1]
    }

    /** A store opened on what was written for a corpus has its identity, count, length and payload. */
    lemma MeasuresWritten(documents: seq<Bytes>, identity: Bytes)
      requires Valid() && Parse(stream.data) == Ok(Recorded()) && dataOffset == DataOffset(Recorded())
      requires stream.data == Encode(StoreOf(documents, identity), Concat(documents))
      requires |identity| == 32 && !IsZero(identity)
      requires Addressable(documents) && TotalLength(documents) < U64
      requires 92 + 12 * |documents| <= MAX_U64 / 8
      ensures pairIdentity == identity && Payload() == Concat(documents)
      ensures Size() == |documents| && RawBytes() == TotalLength(documents)
    {
      hide Parse, Encode, Describes, CrcOf, Concat, DataOffset, StoreOf, Addressable, IsZero, TotalLength;
      WrittenReadsBack(documents, identity, 0);
      StoreShape(documents, identity);
    }

    /** The size and the raw length are those of the tables and the payload. */
    lemma Measures()
      requires Valid()
      ensures Size() == |checksums| && RawBytes() == |Payload()|
    {
      hide Describes;
      DescribedTable(Recorded(), fileSize - dataOffset);
    }

    /** No range check fails for an id below the size, and the only bytes ever
        returned are the recorded chunk with the recorded checksum. */
    method Read(id: nat) returns (r: Result<Bytes, ReadError>)
      requires Valid()
      modifies stream
      ensures Valid() && Payload() == old(Payload()) && Recorded() == old(Recorded())
      ensures r == if id >= Size() then Err(IdOutOfRange) else ReadChunk(Payload(), Recorded(), id)
    {
      hide Describes, CrcOf, Crc32c.Crc;
      ShapeOf(Recorded(), fileSize - dataOffset);
      if id >= Size() {
        return Err(IdOutOfRange);
      }
      OffsetsWithin(Recorded(), fileSize - dataOffset, id);
      var begin := offsets[id];
      var end := offsets[id + 1];
      var length := Sub64(end, begin);
      assert length == end - begin;
      if dataOffset > fileSize || begin > Sub64(fileSize, dataOffset)
        || length > Sub64(Sub64(fileSize, dataOffset), begin) {
        assert false; // the range always lies inside the file
      }
      var absolute := Add64(dataOffset, begin);
      assert absolute == dataOffset + begin;
      if absolute > MAX_OFFSET || length > MAX_OFFSET {
        assert false; // and inside what a stream can address
      }
      stream.Seek(absolute);
      var chunk := stream.ReadBytes(length);
      SliceOfRest(stream.data, dataOffset, begin, end);
      r := CheckChunk(chunk.value, checksums[id]);
    }
  }

  method CheckChunk(chunk: Bytes, expected: nat) returns (r: Result<Bytes, ReadError>)
    ensures r == if CrcOf(chunk) == expected then Ok(chunk) else Err(ChecksumMismatch)
  {
    hide Crc32c.Crc;
    var checksum := Crc32c.Checksum(chunk);
    r := if checksum as int != expected then Err(ChecksumMismatch) else Ok(chunk);
  }

  lemma ShapeOf(f: Fields, payload: nat)
    requires Describes(f, payload)
    ensures |f.offsets| == |f.checksums| + 1
  {
  }

  lemma {:induction false} MonotoneBetween(offsets: seq<nat>, i: nat, j: nat)
    requires Monotone(offsets) && i <= j < |offsets|
    ensures offsets[i] <= offsets[j]
    decreases j
  {
    if i < j {
      MonotoneBetween(offsets, i, j - 1);
      assert offsets[j - 1] <= offsets[j];
    }
  }

  lemma OffsetsWithin(f: Fields, payload: nat, id: nat)
    requires Describes(f, payload) && id < |f.checksums|
    ensures f.offsets[id] <= f.offsets[id + 1] <= payload
  {
    MonotoneBetween(f.offsets, id, id + 1);
    MonotoneBetween(f.offsets, id + 1, |f.checksums|);
  }

  /** What reading a chunk of the payload yields. */
  function ReadChunk(payload: Bytes, f: Fields, id: nat): Result<Bytes, ReadError>
    requires Describes(f, |payload|) && id < |f.checksums|
  {
    var chunk := Chunk(payload, f, id);
    if CrcOf(chunk) == f.checksums[id] then Ok(chunk) else Err(ChecksumMismatch)
  }

  function Chunk(payload: Bytes, f: Fields, id: nat): Bytes
    requires Describes(f, |payload|) && id < |f.checksums|
  {
    OffsetsWithin(f, |payload|, id);
    payload[f.offsets[id]..f.offsets[id + 1]]
  }

  /** The first n chunks, by id. */
  function Chunks(payload: Bytes, f: Fields, n: nat): (chunks: seq<Bytes>)
    requires Describes(f, |payload|) && n <= |f.checksums|
    ensures |chunks| == n
  {
    seq(n, id requires 0 <= id < n => Chunk(payload, f, id))
  }

  /** The chunks before an offset are the bytes before it: none overlaps, none is missing. */
  lemma {:induction false} ChunksConcatenate(payload: Bytes, f: Fields, n: nat)
    requires Describes(f, |payload|) && n <= |f.checksums|
    ensures f.offsets[n] <= |payload| && Concat(Chunks(payload, f, n)) == payload[..f.offsets[n]]
    decreases n
  {
    hide Describes;
    DescribedTable(f, |payload|);
    MonotoneBetween(f.offsets, n, |f.checksums|);
    if n > 0 {
      ChunksConcatenate(payload, f, n - 1);
      var chunks := Chunks(payload, f, n);
      assert chunks[..n - 1] == Chunks(payload, f, n - 1);
      OffsetsWithin(f, |payload|, n - 1);
    }
  }

  lemma DescribedTable(f: Fields, payload: nat)
    requires Describes(f, payload)
    ensures |f.offsets| == |f.checksums| + 1 && Monotone(f.offsets)
    ensures f.offsets[0] == 0 && f.offsets[|f.checksums|] == payload
  {
  }

  /** Whatever opens, the chunks of all its ids concatenate to its payload. */
  lemma ChunksArePayload(file: Bytes)
    requires Parse(file).Ok?
    ensures var f := Parse(file).value;
            && DataOffset(f) <= |file| && Describes(f, |file| - DataOffset(f))
            && Concat(Chunks(file[DataOffset(f)..], f, |f.checksums|)) == file[DataOffset(f)..]
  {
    hide Describes, Parse, Encode, DataOffset;
    AcceptedIsEncoded(file);
    var f := Parse(file).value;
    var payload := file[DataOffset(f)..];
    DescribedTable(f, |payload|);
    ChunksConcatenate(payload, f, |f.checksums|);
    assert payload[..|payload|] == payload;
  }

  /** The offset table is the one its chunks would be written with. */
  lemma OffsetsOfChunks(payload: Bytes, f: Fields)
    requires Describes(f, |payload|)
    ensures f.offsets == Offsets(Chunks(payload, f, |f.checksums|))
  {
    hide Describes, Concat, TotalLength, Chunk;
    DescribedTable(f, |payload|);
    var chunks := Chunks(payload, f, |f.checksums|);
    forall n | 0 <= n <= |f.checksums| ensures f.offsets[n] == TotalLength(chunks[..n]) {
      ChunksConcatenate(payload, f, n);
      assert chunks[..n] == Chunks(payload, f, n);
    }
  }

  /** A file that opens and of which every id reads is, byte for byte, the store written for what it reads. */
  lemma ReadableIsWritten(file: Bytes, documents: seq<Bytes>)
    requires Parse(file).Ok?
    requires var f := Parse(file).value;
             && DataOffset(f) <= |file| && Describes(f, |file| - DataOffset(f)) && |documents| == |f.checksums|
             && forall id :: 0 <= id < |documents| ==> ReadChunk(file[DataOffset(f)..], f, id) == Ok(documents[id])
    ensures file == Encode(StoreOf(documents, Parse(file).value.identity), Concat(documents))
  {
    hide Describes, Parse, Encode, DataOffset, Offsets, Concat, CrcOf;
    var f := Parse(file).value;
    var payload := file[DataOffset(f)..];
    AcceptedIsEncoded(file);
    ChunksArePayload(file);
    assert documents == Chunks(payload, f, |f.checksums|);
    OffsetsOfChunks(payload, f);
    assert f.checksums == Checksums(documents);
  }

  method ReadTable(stream: Input, width: nat, count: nat) returns (values: seq<nat>)
    requires width > 0 && stream.position + width * count <= |stream.data|
    modifies stream
    ensures stream.position == old(stream.position) + width * count
    ensures values == DecodeWords(stream.data[old(stream.position)..old(stream.position) + width * count], width)
  {
    hide DecodeWords, FromLittleEndian;
    values := [];
    ghost var start, end := stream.position, stream.position + width * count;
    ghost var data := stream.data;
    for i := 0 to count
      invariant start <= stream.position && stream.position + width * (count - i) == end
      invariant DecodeWords(data[start..end], width) == values + DecodeWords(data[stream.position..end], width)
    {
      NextProduct(width, count - i);
      ProductNonNegative(width, count - i - 1);
      NextWordOf(data, stream.position, end, width);
      var word := stream.ReadBytes(width);
      var value := ReadLe(word.value);
      values := values + [value];
    }
    DecodeNothing(data[end..end], width);
  }

  lemma ProductNonNegative(a: nat, b: nat)
    ensures a * b >= 0
  {
  }

  lemma NextWordOf(data: Bytes, position: nat, end: nat, width: nat)
    requires 0 < width && position + width <= end <= |data|
    ensures DecodeWords(data[position..end], width)
         == [FromLittleEndian(data[position..position + width])] + DecodeWords(data[position + width..end], width)
  {
    var rest := data[position..end];
    DecodeNextWord(rest, width);
    assert rest[..width] == data[position..position + width];
    assert rest[width..] == data[position + width..end];
  }

  lemma DecodeNothing(b: Bytes, width: nat)
    requires |b| == 0 < width
    ensures DecodeWords(b, width) == []
  {
  }

  // ---------- opening, step by step ----------

  /** The whole of `open`: every 64-bit computation agrees with the unbounded one. */
  method Open(file: Bytes) returns (r: Result<Store, OpenError>)
    requires |file| <= MAX_OFFSET
    ensures r.Ok? <==> WellFormed(file)
    ensures r.Err? ==> Parse(file) == Err(r.error) && Fails(file, r.error)
    ensures r.Ok? ==> ReadOff(file, r.value.Recorded()) && r.value.dataOffset == 124 + 12 * Count(file)
    ensures r.Ok? ==>
      && fresh(r.value) && fresh(r.value.stream) && r.value.stream.data == file
      && Parse(file) == Ok(r.value.Recorded()) && r.value.Valid()
      && r.value.dataOffset == DataOffset(r.value.Recorded())
  {
    hide Hash, FromLittleEndian, DecodeWords, Describes, Encode, WellFormed, Fails;
    ParseByPlace(file);
    var stream := new Input(file);
    var store := new Store(stream);
    store.fileSize := |file|;
    var header := ReadHeaderFields(stream);
    if header.Err? {
      return Err(header.error);
    }
    var (identity, count) := header.value;
    var table := ReadTables(stream, identity, count);
    if table.Err? {
      return Err(table.error);
    }
    AcceptedIsEncoded(file);
    store.pairIdentity := identity;
    store.offsets := table.value.0;
    store.checksums := table.value.1;
    store.dataOffset := table.value.2;
    r := Ok(store);
  }

  method ReadHeaderFields(stream: Input) returns (r: Result<(Bytes, nat), OpenError>)
    requires stream.position == 0
    modifies stream
    ensures r.Err? ==> Parse(stream.data) == Err(r.error)
    ensures r.Ok? ==>
      && |stream.data| >= 84 && r.value.1 < U64
      && Parse(stream.data) == ParseTable(stream.data, r.value.0, r.value.1)
  {
    hide Hash, FromLittleEndian, ParseTable;
    var magic := stream.ReadBytes(8);
    if magic == None {
      return Err(TruncatedFile);
    }
    if magic.value != MAGIC {
      return Err(NotAStore);
    }
    var versionBytes := stream.ReadBytes(4);
    if versionBytes == None {
      return Err(TruncatedFile);
    }
    var version := ReadLe(versionBytes.value);
    if version != VERSION {
      return Err(UnsupportedVersion);
    }
    var identity := stream.ReadBytes(32);
    if identity == None {
      return Err(TruncatedFile);
    }
    if IsZero(identity.value) {
      return Err(ZeroIdentity);
    }
    var countBytes := stream.ReadBytes(8);
    if countBytes == None {
      return Err(TruncatedFile);
    }
    var count := ReadLe(countBytes.value);
    var headerSize := stream.position;
    var stored := stream.ReadBytes(32);
    if stored == None {
      return Err(TruncatedFile);
    }
    var computed := HashPrefix(stream.data, headerSize);
    if stored.value != computed.value {
      return Err(HeaderMismatch);
    }
    FromLittleEndianRoundTrip(countBytes.value);
    assert U64 == Power256(8);
    r := Ok((identity.value, count));
  }

  method ReadTables(stream: Input, identity: Bytes, count: nat) returns (r: Result<(seq<nat>, seq<nat>, nat),
      OpenError>)
    requires 84 <= |stream.data| <= MAX_OFFSET && count < U64
    modifies stream
    ensures r.Err? ==> ParseTable(stream.data, identity, count) == Err(r.error)
    ensures r.Ok? ==>
      && ParseTable(stream.data, identity, count) == Ok(Fields(identity, r.value.0, r.value.1))
      && |r.value.1| == count && r.value.2 == 92 + 12 * count + 32
  {
    hide ParseEntries, Hash, Add64, Sub64, Mul64;
    var measured := MeasureMetadata(|stream.data|, count);
    if measured == None {
      return Err(MetadataExceedsFile);
    }
    var metadataSize := measured.value;
    stream.Seek(metadataSize);
    var stored := stream.ReadBytes(32);
    var computed := HashPrefix(stream.data, metadataSize);
    if computed.Err? {
      return Err(MetadataTooLarge);
    }
    if stored.value != computed.value {
      return Err(MetadataMismatch);
    }
    stream.Seek(84);
    r := ReadEntries(stream, identity, count, metadataSize + 32);
  }

  /** The size computations of `open`, in wrapping 64-bit arithmetic: none of them wraps. */
  method MeasureMetadata(fileSize: nat, count: nat) returns (r: Option<nat>)
    requires fileSize <= MAX_OFFSET && count < U64
    ensures r == if 92 + 12 * count + 32 > fileSize then None else Some(92 + 12 * count)
  {
    var tablePosition := Add64(52, 32);
    if tablePosition > fileSize || Sub64(fileSize, tablePosition) < 32 || count > Sub64(MAX_U64, 8) / 12 {
      return None;
    }
    var tableBytes := Add64(8, Mul64(count, 12));
    assert tableBytes == 8 + 12 * count;
    if tableBytes > Sub64(Sub64(fileSize, tablePosition), 32) {
      return None;
    }
    var metadataSize := Add64(tablePosition, tableBytes);
    if metadataSize > MAX_OFFSET {
      assert false; // a larger file could not have been measured
    }
    r := Some(metadataSize);
  }

  lemma EntriesParse(file: Bytes, identity: Bytes, count: nat)
    requires |file| >= 124 + 12 * count
    ensures |DecodeWords(file[92 + 8 * count..92 + 12 * count], 4)| == count
    ensures ParseEntries(file, identity, count) ==
            var offsets := DecodeWords(file[84..92 + 8 * count], 8);
            var checksums := DecodeWords(file[92 + 8 * count..92 + 12 * count], 4);
            if |offsets| == 0 || offsets[0] != 0 then Err(InvalidOffsets)
            else if !Monotone(offsets) then Err(OffsetsNotMonotonic)
            else if offsets[|offsets| - 1] != |file| - (124 + 12 * count) then Err(PayloadMismatch)
            else Ok(Fields(identity, offsets, checksums))
  {
    hide DecodeWords, Monotone;
    EncodeDecoded(file[92 + 8 * count..92 + 12 * count], 4, count);
  }

  method ReadEntries(stream: Input, ghost identity: Bytes, count: nat, dataOffset: nat)
    returns (r: Result<(seq<nat>, seq<nat>, nat), OpenError>)
    requires stream.position == 84 && dataOffset == 124 + 12 * count <= |stream.data| < U64
    modifies stream
    ensures r.Err? ==> ParseEntries(stream.data, identity, count) == Err(r.error)
    ensures r.Ok? ==>
      && ParseEntries(stream.data, identity, count) == Ok(Fields(identity, r.value.0, r.value.1))
      && |r.value.1| == count && r.value.2 == dataOffset
  {
    hide DecodeWords, ParseEntries, Monotone;
    var offsets := ReadTable(stream, 8, count + 1);
    var checksums := ReadTable(stream, 4, count);
    EntriesParse(stream.data, identity, count);
    var verdict := CheckOffsets(offsets, dataOffset, |stream.data|);
    if verdict.Err? {
      return Err(verdict.error);
    }
    r := Ok((offsets, checksums, dataOffset));
  }

  method CheckOffsets(offsets: seq<nat>, dataOffset: nat, fileSize: nat) returns (r: Result<(), OpenError>)
    requires dataOffset <= fileSize < U64
    ensures r == if |offsets| == 0 || offsets[0] != 0 then Err(InvalidOffsets)
                 else if !Monotone(offsets) then Err(OffsetsNotMonotonic)
                 else if offsets[|offsets| - 1] != fileSize - dataOffset then Err(PayloadMismatch)
                 else Ok(())
  {
    if |offsets| == 0 || offsets[0] != 0 {
      return Err(InvalidOffsets);
    }
    for i := 1 to |offsets|
      invariant forall j :: 0 < j < i ==> offsets[j - 1] <= offsets[j]
    {
      if offsets[i] < offsets[i - 1] {
        return Err(OffsetsNotMonotonic);
      }
    }
    if offsets[|offsets| - 1] != Sub64(fileSize, dataOffset) {
      return Err(PayloadMismatch);
    }
    r := Ok(());
  }

  // ---------- write, open and read together ----------

  lemma {:induction false} ChunkOf(documents: seq<Bytes>, i: nat)
    requires i < |documents|
    ensures TotalLength(documents[..i]) <= TotalLength(documents[..i + 1]) <= TotalLength(documents)
    ensures Concat(documents)[TotalLength(documents[..i])..TotalLength(documents[..i + 1])] == documents[i]
    decreases |documents|
  {
    PrefixStep(documents, i);
    PrefixLength(documents, i + 1);
    var front := documents[..|documents| - 1];
    if i == |documents| - 1 {
      assert documents[..i + 1] == documents;
    } else {
      ChunkOf(front, i);
      assert front[..i] == documents[..i] && front[..i + 1] == documents[..i + 1];
    }
  }

  /** Every document of every corpus within the limits comes back from its written store unchanged. */
  lemma WrittenReadsBack(documents: seq<Bytes>, identity: Bytes, id: nat)
    requires |identity| == 32 && !IsZero(identity)
    requires Addressable(documents) && TotalLength(documents) < U64
    requires 92 + 12 * |documents| <= MAX_U64 / 8
    ensures var f, payload := StoreOf(documents, identity), Concat(documents);
            && Describes(f, |payload|)
            && Parse(Encode(f, payload)) == Ok(f)
            && Encode(f, payload)[DataOffset(f)..] == payload
            && f.offsets[|f.offsets| - 1] == TotalLength(documents)
            && (id < |documents| ==> ReadChunk(payload, f, id) == Ok(documents[id]))
  {
    hide Hash, Parse, CrcOf, ReadChunk;
    var f, payload := StoreOf(documents, identity), Concat(documents);
    StoreDescribes(documents, identity);
    ParseEncoded(f, payload);
    PayloadFollows(f, payload);
    assert documents[..|documents|] == documents;
    if id < |documents| {
      ChunkReadsBack(documents, identity, id);
    }
  }

  lemma PayloadFollows(f: Fields, payload: Bytes)
    requires |f.identity| == 32 && |f.offsets| == |f.checksums| + 1
    ensures |Encode(f, payload)| == DataOffset(f) + |payload|
    ensures Encode(f, payload)[DataOffset(f)..] == payload
  {
    hide Hash, Metadata;
    MetadataParts(f, []);
  }

  lemma ChunkReadsBack(documents: seq<Bytes>, identity: Bytes, id: nat)
    requires id < |documents|
    requires Describes(StoreOf(documents, identity), |Concat(documents)|)
    ensures ReadChunk(Concat(documents), StoreOf(documents, identity), id) == Ok(documents[id])
  {
    hide CrcOf, Describes;
    ChunkOf(documents, id);
  }

  /** A store in which one document was damaged within 32 consecutive bits, at any offset, still
      opens, and that document is refused rather than returned. */
  lemma DamageDetected(documents: seq<Bytes>, identity: Bytes, id: nat, damaged: Bytes, head: seq<bool>,
      u: seq<bool>, u': seq<bool>, tail: seq<bool>)
    requires |identity| == 32 && !IsZero(identity)
    requires Addressable(documents) && TotalLength(documents) < U64
    requires 92 + 12 * |documents| <= MAX_U64 / 8
    requires id < |documents| && damaged != documents[id] && |u| == |u'| <= 32
    requires Crc32c.MessageBits(documents[id]) == head + u + tail && Crc32c.MessageBits(damaged) == head + u' + tail
    ensures var f := StoreOf(documents, identity);
            var payload := Concat(documents[id := damaged]);
            && Describes(f, |payload|)
            && Parse(Encode(f, payload)) == Ok(f)
            && ReadChunk(payload, f, id) == Err(ChecksumMismatch)
  {
    hide Hash, Parse, Crc32c.Crc, Crc32c.MessageBits;
    Crc32c.MessageBitsLength(documents[id]);
    Crc32c.MessageBitsLength(damaged);
    var f, documents' := StoreOf(documents, identity), documents[id := damaged];
    SameOffsets(documents, documents');
    StoreDescribes(documents, identity);
    ParseEncoded(f, Concat(documents'));
    ChunkOf(documents', id);
    Crc32c.DetectsBurst(documents[id], damaged, head, u, u', tail);
    ChecksumsDiffer(documents[id], damaged);
  }

  lemma ChecksumsDiffer(a: Bytes, b: Bytes)
    requires Crc32c.Crc(a) != Crc32c.Crc(b)
    ensures CrcOf(a) != CrcOf(b)
  {
    hide Crc32c.Crc;
    AsIntInjective(Crc32c.Crc(a), Crc32c.Crc(b));
  }

  lemma AsIntInjective(x: bv32, y: bv32)
    requires x != y
    ensures x as int != y as int
  {
    AsIntRoundTrip(x);
    AsIntRoundTrip(y);
  }

  lemma AsIntRoundTrip(x: bv32)
    ensures 0 <= x as int < 0x1_0000_0000 && (x as int) as bv32 == x
  {
  }

  lemma {:induction false} SameLength(a: seq<Bytes>, b: seq<Bytes>)
    requires |a| == |b|
    requires forall i :: 0 <= i < |a| ==> |a[i]| == |b[i]|
    ensures TotalLength(a) == TotalLength(b)
    decreases |a|
  {
    if |a| > 0 {
      SameLength(a[..|a| - 1], b[..|b| - 1]);
    }
  }

  lemma SameOffsets(a: seq<Bytes>, b: seq<Bytes>)
    requires |a| == |b|
    requires forall i :: 0 <= i < |a| ==> |a[i]| == |b[i]|
    ensures Offsets(a) == Offsets(b) && TotalLength(a) == TotalLength(b)
  {
    forall i | 0 <= i <= |a| ensures TotalLength(a[..i]) == TotalLength(b[..i]) {
      SameLength(a[..i], b[..i]);
    }
    SameLength(a, b);
  }
}
