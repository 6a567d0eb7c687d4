/**
 * `train_product_quantizer` as a whole: argument checks, sampling, one training
 * run per subspace into the shared codebook, and the packed codes.
 */
module QuantizerTraining {
  import Bytes
  import opened Outcomes
  import opened Vectors
  import opened Lloyd
  import opened SubspaceTraining
  import opened BitPacking
  import opened ProductQuantizer

  datatype TrainError =
    | NoEmbeddings
    | UnevenSubquantizers
    | BitsOutOfRange
    | CountsNotPositive
    | DimensionsDiffer
    | NotNormalized

  // ---------- sampling ----------

  predicate Distinct(ids: seq<nat>) {
    forall i, j :: 0 <= i < j < |ids| ==> ids[i] != ids[j]
  }

  predicate Samples(ids: seq<nat>, count: nat, limit: nat) {
    && |ids| == (if count > limit then limit else count)
    && Distinct(ids)
    && forall i :: 0 <= i < |ids| ==> ids[i] < count
  }

  /** All ids, or a shuffled prefix of them. */
  method ChooseSamples(count: nat, limit: nat, generator: Generator) returns (ids: seq<nat>)
    ensures Samples(ids, count, limit)
  {
    var all := new nat[count](i => i);
    if count > limit {
      for i := 1 to count
        invariant Distinct(all[..]) && forall j :: 0 <= j < count ==> all[j] < count
      {
        var j := generator.Index(i + 1);
        all[i], all[j] := all[j], all[i];
      }
      ids := all[..limit];
    } else {
      ids := all[..];
    }
  }

  // ---------- encoding ----------

  /** A code as the packer takes it. */
  function CodeWord(c: nat): bv32
    requires c < 256
  {
    (c as bv8) as bv32
  }

  function CodeWords(t: seq<nat>): (words: seq<bv32>)
    requires forall i :: 0 <= i < |t| ==> t[i] < 256
    ensures |words| == |t|
  {
    seq(|t|, i requires 0 <= i < |t| => CodeWord(t[i]))
  }

  lemma Power2Values()
    ensures Power2(1) == 2 && Power2(2) == 4 && Power2(3) == 8 && Power2(4) == 16
    ensures Power2(5) == 32 && Power2(6) == 64 && Power2(7) == 128 && Power2(8) == 256
  {
  }

  lemma WideningKeeps(b: bv8)
    ensures (b as bv32) as int == b as int
  {
  }

  /** A code below 2^bits fits its bits and reads back as itself. */
  lemma CodeFits(c: nat, bits: nat)
    requires 1 <= bits <= 8 && c < Power2(bits)
    ensures c < 256 && FitsIn(CodeWord(c), bits) && CodeWord(c) as int == c
  {
    Power2Values();
    Bytes.ByteRoundTrip(c);
    WideningKeeps(c as bv8);
    match bits case 1 => case 2 => case 3 => case 4 => case 5 => case 6 => case 7 => case _ =>
  }

  /** The shape every step of training and encoding works with. */
  datatype Shape = Shape(subquantizers: nat, bits: nat, centroids: nat, subdimension: nat) {
    predicate Valid() {
      subquantizers > 0 && 1 <= bits <= 8 && 0 < centroids <= Power2(bits) && subdimension > 0
    }

    function BitsPerVector(): nat {
      8 * BytesPerVector(subquantizers, bits)
    }
  }

  predicate IsBook(codebook: seq<Point>, s: Shape) {
    |codebook| == s.subquantizers * s.centroids && Uniform(codebook, s.subdimension)
  }

  predicate IsVector(x: Point, s: Shape) {
    |x| == s.subquantizers * s.subdimension
  }

  function Best(codebook: seq<Point>, x: Point, s: Shape): (t: seq<nat>)
    requires s.Valid() && IsBook(codebook, s) && IsVector(x, s)
    ensures Tuple(t, s.subquantizers, s.centroids)
  {
    BestCodes(codebook, x, s.subquantizers, s.centroids, s.subdimension)
  }

  lemma BestFits(codebook: seq<Point>, x: Point, s: Shape)
    requires s.Valid() && IsBook(codebook, s) && IsVector(x, s)
    ensures forall i :: 0 <= i < s.subquantizers ==>
      var c := Best(codebook, x, s)[i];
      c < 256 && FitsIn(CodeWord(c), s.bits) && CodeWord(c) as int == c
  {
    hide FitsIn, CodeWord;
    var t := Best(codebook, x, s);
    forall i | 0 <= i < s.subquantizers
      ensures t[i] < 256 && FitsIn(CodeWord(t[i]), s.bits) && CodeWord(t[i]) as int == t[i]
    {
      assert t[i] < s.centroids;
      CodeFits(t[i], s.bits);
    }
  }

  function BestWords(codebook: seq<Point>, x: Point, s: Shape): (words: seq<bv32>)
    requires s.Valid() && IsBook(codebook, s) && IsVector(x, s)
    ensures |words| == s.subquantizers
  {
    BestFits(codebook, x, s);
    CodeWords(Best(codebook, x, s))
  }

  /** Packs one vector's codes into its zeroed stretch of the buffer. */
  method EncodeNode(packed: array<bv8>, start: nat, codebook: seq<Point>, x: Point, s: Shape)
    requires s.Valid() && IsBook(codebook, s) && IsVector(x, s)
    requires start + s.subquantizers * s.bits <= 8 * packed.Length
    requires ZeroBetween(packed[..], start, 8 * packed.Length)
    modifies packed
    ensures HoldsCodes(packed[..], start, s.bits, BestWords(codebook, x, s))
    ensures ZeroBetween(packed[..], start + s.subquantizers * s.bits, 8 * packed.Length)
    ensures forall k: nat :: k < start ==> BitAt(packed[..], k) == old(BitAt(packed[..], k))
  {
    hide BestWords, HoldsCodes, BitAt, FitsIn, UnpackCode, ZeroBetween, Octet, Bit;
    ghost var words := BestWords(codebook, x, s);
    HoldsNothing(packed[..], start, s.bits);
    assert words[..0] == [];
    for sub := 0 to s.subquantizers
      invariant start + sub * s.bits <= 8 * packed.Length
      invariant HoldsCodes(packed[..], start, s.bits, words[..sub])
      invariant ZeroBetween(packed[..], start + sub * s.bits, 8 * packed.Length)
      invariant forall k: nat :: k < start ==> BitAt(packed[..], k) == old(BitAt(packed[..], k))
    {
      var code := EncodePart(codebook, x, s, sub);
      var offset := start + sub * s.bits;
      CodeFollows(start, sub, s.subquantizers, s.bits, offset);
      ghost var before := packed[..];
      PackCode(packed, offset, s.bits, code);
      NextWord(before, packed[..], start, s.bits, words, sub, offset);
    }
    assert words[..s.subquantizers] == words;
  }

  lemma CodeFollows(start: nat, sub: nat, subquantizers: nat, bits: nat, offset: nat)
    requires sub < subquantizers && offset == start + sub * bits
    ensures offset + bits == start + (sub + 1) * bits <= start + subquantizers * bits
  {
    Consecutive(sub, subquantizers, bits);
  }

  lemma NextWord(before: seq<bv8>, after: seq<bv8>, start: nat, bits: nat, words: seq<bv32>, sub: nat, offset: nat)
    requires 1 <= bits <= 8 && sub < |words| && FitsIn(words[sub], bits)
    requires offset == start + sub * bits && offset + bits <= 8 * |before|
    requires HoldsCodes(before, start, bits, words[..sub]) && ZeroBetween(before, offset, 8 * |before|)
    requires PackedAt(before, after, offset, bits, words[sub])
    ensures start + (sub + 1) * bits == offset + bits
    ensures HoldsCodes(after, start, bits, words[..sub + 1])
    ensures ZeroBetween(after, start + (sub + 1) * bits, 8 * |before|)
  {
    hide HoldsCodes, ZeroBetween, PackedAt, FitsIn;
    PackNext(before, after, start, bits, words[..sub], words[sub], 8 * |before|);
    assert words[..sub + 1] == words[..sub] + [words[sub]];
    CodeFollows(start, sub, sub + 1, bits, offset);
  }

  lemma HoldsNothing(packed: seq<bv8>, start: nat, bits: nat)
    requires 1 <= bits <= 8 && start <= 8 * |packed|
    ensures HoldsCodes(packed, start, bits, [])
  {
  }

  /** The nearest centroid of one subspace, as a code. */
  method EncodePart(codebook: seq<Point>, x: Point, s: Shape, sub: nat) returns (code: bv32)
    requires s.Valid() && IsBook(codebook, s) && IsVector(x, s) && sub < s.subquantizers
    ensures code == BestWords(codebook, x, s)[sub] && FitsIn(code, s.bits)
  {
    hide FitsIn, CodeWord;
    Consecutive(sub, s.subquantizers, s.subdimension);
    BookUniform(codebook, sub, s.subquantizers, s.centroids, s.subdimension);
    var best, _ := FindNearest(Subvector(x, sub, s.subdimension), Book(codebook, sub, s.centroids));
    BestFits(codebook, x, s);
    assert best == Best(codebook, x, s)[sub];
    code := CodeWord(best);
  }

  predicate AllVectors(xs: seq<Point>, s: Shape) {
    forall i :: 0 <= i < |xs| ==> IsVector(xs[i], s)
  }

  /** The first n vectors' best codes are in the buffer, and nothing after them. */
  predicate Encoded(packed: seq<bv8>, codebook: seq<Point>, xs: seq<Point>, s: Shape, n: nat)
    requires s.Valid() && IsBook(codebook, s) && AllVectors(xs, s) && n <= |xs|
  {
    && (forall node :: 0 <= node < n ==>
          HoldsCodes(packed, node * s.BitsPerVector(), s.bits, BestWords(codebook, xs[node], s)))
    && ZeroBetween(packed, n * s.BitsPerVector(), 8 * |packed|)
  }

  lemma NodeRoom(s: Shape, node: nat, count: nat, length: nat)
    requires s.Valid() && node < count && 8 * length == count * s.BitsPerVector()
    ensures node * s.BitsPerVector() + s.subquantizers * s.bits <= (node + 1) * s.BitsPerVector() <= 8 * length
  {
    BytesSuffice(s.subquantizers, s.bits);
    Consecutive(node, count, s.BitsPerVector());
  }

  /** Encoding one more node keeps the earlier ones. */
  lemma EncodedNext(before: seq<bv8>, after: seq<bv8>, codebook: seq<Point>, xs: seq<Point>, s: Shape, n: nat)
    requires s.Valid() && IsBook(codebook, s) && AllVectors(xs, s) && n < |xs|
    requires |before| == |after| && 8 * |before| == |xs| * s.BitsPerVector()
    requires Encoded(before, codebook, xs, s, n)
    requires HoldsCodes(after, n * s.BitsPerVector(), s.bits, BestWords(codebook, xs[n], s))
    requires ZeroBetween(after, n * s.BitsPerVector() + s.subquantizers * s.bits, 8 * |after|)
    requires forall k: nat :: k < n * s.BitsPerVector() && k < 8 * |after| ==> BitAt(after, k) == BitAt(before, k)
    ensures Encoded(after, codebook, xs, s, n + 1)
  {
    hide BestWords, HoldsCodes, BitAt, BytesPerVector;
    NodeRoom(s, n, |xs|, |before|);
    forall node | 0 <= node < n
      ensures HoldsCodes(after, node * s.BitsPerVector(), s.bits, BestWords(codebook, xs[node], s))
    {
      NodeRoom(s, node, |xs|, |before|);
      Consecutive(node, n, s.BitsPerVector());
      HoldsUntouched(before, after, node * s.BitsPerVector(), s.bits, BestWords(codebook, xs[node], s));
    }
  }

  /** All nodes, each into its own bytes. */
  method EncodeAll(codebook: seq<Point>, xs: seq<Point>, s: Shape) returns (codes: seq<bv8>)
    requires s.Valid() && IsBook(codebook, s) && AllVectors(xs, s)
    ensures |codes| == |xs| * BytesPerVector(s.subquantizers, s.bits)
    ensures Encoded(codes, codebook, xs, s, |xs|)
  {
    hide Encoded, BestWords, HoldsCodes, BitAt, BytesPerVector, ZeroBetween;
    var bytes := BytesPerVector(s.subquantizers, s.bits);
    var packed := new bv8[|xs| * bytes](_ => 0);
    EightTimes(|xs|, bytes);
    StartsZero(packed[..], codebook, xs, s);
    for node := 0 to |xs|
      modifies packed
      invariant Encoded(packed[..], codebook, xs, s, node)
    {
      ghost var before := packed[..];
      NodeRoom(s, node, |xs|, packed.Length);
      EncodedZero(before, codebook, xs, s, node);
      EightTimes(node, bytes);
      EncodeNode(packed, 8 * (node * bytes), codebook, xs[node], s);
      EncodedNext(before, packed[..], codebook, xs, s, node);
    }
    codes := packed[..];
  }

  lemma EightTimes(n: nat, bytes: nat)
    ensures 8 * (n * bytes) == n * (8 * bytes)
  {
  }

  lemma EncodedZero(packed: seq<bv8>, codebook: seq<Point>, xs: seq<Point>, s: Shape, n: nat)
    requires s.Valid() && IsBook(codebook, s) && AllVectors(xs, s) && n <= |xs| && Encoded(packed, codebook, xs, s, n)
    ensures ZeroBetween(packed, n * s.BitsPerVector(), 8 * |packed|)
  {
  }

  lemma StartsZero(packed: seq<bv8>, codebook: seq<Point>, xs: seq<Point>, s: Shape)
    requires s.Valid() && IsBook(codebook, s) && AllVectors(xs, s)
    requires forall i :: 0 <= i < |packed| ==> packed[i] == 0
    ensures Encoded(packed, codebook, xs, s, 0)
  {
    forall k: nat | k < 8 * |packed| ensures !BitAt(packed, k) {
      ZeroHasNoBits(k % 8);
      assert packed[k / 8] == 0;
    }
  }

  lemma ZeroHasNoBits(i: nat)
    requires i < 8
    ensures !Bit(0, i)
  {
  }

  /** What is stored for a node reads back as its best codes. */
  lemma StoredIsBest(m: Model, xs: seq<Point>, s: Shape, node: nat)
    requires s.Valid() && IsBook(m.codebook, s) && AllVectors(xs, s) && node < |xs|
    requires m.subquantizers == s.subquantizers && m.bits == s.bits
    requires |m.codes| == |xs| * BytesPerVector(s.subquantizers, s.bits)
    requires Encoded(m.codes, m.codebook, xs, s, |xs|)
    ensures StoresNode(m, node) && StoredCodes(m, node) == Best(m.codebook, xs[node], s)
  {
    hide Best, UnpackCode, BytesPerVector, FitsIn, CodeWord;
    var bytes := BytesPerVector(s.subquantizers, s.bits);
    EightTimes(|xs|, bytes);
    EightTimes(node, bytes);
    NodeRoom(s, node, |xs|, |m.codes|);
    BestFits(m.codebook, xs[node], s);
    var words := BestWords(m.codebook, xs[node], s);
    assert HoldsCodes(m.codes, NodeStart(s.subquantizers, s.bits, node), s.bits, words);
    forall i | 0 <= i < s.subquantizers
      ensures StoredCode(m, node, i) as int == Best(m.codebook, xs[node], s)[i]
    {
      assert words[i] == CodeWord(Best(m.codebook, xs[node], s)[i]);
    }
  }

  // ---------- training every subspace ----------

  /** The sampled vectors' coordinates in one subspace. */
  function Slices(xs: seq<Point>, s: Shape, sub: nat): (ys: seq<Point>)
    requires AllVectors(xs, s) && sub < s.subquantizers
    ensures |ys| == |xs| && Uniform(ys, s.subdimension)
  {
    Consecutive(sub, s.subquantizers, s.subdimension);
    seq(|xs|, i requires 0 <= i < |xs| => Subvector(xs[i], sub, s.subdimension))
  }

  /** A slice is the stretch of coordinates that belongs to the subspace. */
  lemma SliceCoordinates(xs: seq<Point>, s: Shape, sub: nat, i: nat, j: nat)
    requires AllVectors(xs, s) && sub < s.subquantizers && i < |xs| && j < s.subdimension
    ensures sub * s.subdimension + j < |xs[i]|
    ensures Slices(xs, s, sub)[i][j] == xs[i][sub * s.subdimension + j]
  {
    Consecutive(sub, s.subquantizers, s.subdimension);
  }

  /** Draws exist for which k-means++ chooses these seeds. */
  ghost predicate Seeded(seeds: seq<Point>, ys: seq<Point>, width: nat) {
    exists draws :: Spread(seeds, draws, ys, width)
  }

  /** One subspace's part of the codebook ends a trace of all iterations from seeds k-means++ may choose. */
  ghost predicate TrainedPart(part: seq<Point>, xs: seq<Point>, s: Shape, sub: nat, books: Trace, iterations: nat)
    requires AllVectors(xs, s) && sub < s.subquantizers
  {
    var ys := Slices(xs, s, sub);
    && Traced(ys, books, s.subdimension) && |books| == iterations + 1
    && |books[0]| == s.centroids && AllFrom(books[0], ys) && Seeded(books[0], ys, s.subdimension)
    && part == books[iterations]
  }

  ghost predicate Trained(codebook: seq<Point>, xs: seq<Point>, s: Shape, traces: seq<Trace>, iterations: nat, n: nat)
    requires AllVectors(xs, s) && n <= s.subquantizers && |codebook| == s.subquantizers * s.centroids
  {
    && |traces| == n
    && forall sub :: 0 <= sub < n ==>
      (Consecutive(sub, s.subquantizers, s.centroids);
       TrainedPart(Book(codebook, sub, s.centroids), xs, s, sub, traces[sub], iterations))
  }

  lemma TrainedNext(before: seq<Point>, after: seq<Point>, xs: seq<Point>, s: Shape,
    traces: seq<Trace>, next: Trace, iterations: nat, n: nat)
    requires AllVectors(xs, s) && n < s.subquantizers && |before| == |after| == s.subquantizers * s.centroids
    requires Trained(before, xs, s, traces, iterations, n)
    requires n * s.centroids + s.centroids <= |after|
    requires after[..n * s.centroids] == before[..n * s.centroids]
    requires TrainedPart(Book(after, n, s.centroids), xs, s, n, next, iterations)
    ensures Trained(after, xs, s, traces + [next], iterations, n + 1)
  {
    hide TrainedPart, AllVectors, Book;
    var all := traces + [next];
    forall sub | 0 <= sub < n + 1
      ensures (Consecutive(sub, s.subquantizers, s.centroids);
               TrainedPart(Book(after, sub, s.centroids), xs, s, sub, all[sub], iterations))
    {
      Consecutive(sub, s.subquantizers, s.centroids);
      if sub < n {
        EarlierBook(before, after, s.centroids, n, sub);
        assert TrainedPart(Book(before, sub, s.centroids), xs, s, sub, traces[sub], iterations);
      }
    }
  }

  lemma EarlierBook(before: seq<Point>, after: seq<Point>, k: nat, n: nat, sub: nat)
    requires sub < n && n * k <= |before| == |after| && after[..n * k] == before[..n * k]
    ensures 0 <= sub * k && sub * k + k <= n * k && Book(after, sub, k) == Book(before, sub, k)
  {
    Consecutive(sub, n, k);
    PrefixSlice(before, after, n * k, sub * k, sub * k + k);
  }

  lemma PrefixSlice(a: seq<Point>, b: seq<Point>, n: nat, i: nat, j: nat)
    requires i <= j <= n <= |a| == |b| && a[..n] == b[..n]
    ensures a[i..j] == b[i..j]
  {
    assert a[i..j] == a[..n][i..j] && b[i..j] == b[..n][i..j];
  }

  /** A trained codebook has the right shape, and normalized samples make it normalized. */
  lemma TrainedShape(codebook: seq<Point>, xs: seq<Point>, s: Shape, traces: seq<Trace>, iterations: nat)
    requires s.Valid() && AllVectors(xs, s) && AllNormalized(xs) && |codebook| == s.subquantizers * s.centroids
    requires Trained(codebook, xs, s, traces, iterations, s.subquantizers)
    ensures IsBook(codebook, s) && AllNormalized(codebook)
  {
    hide TrainedPart, Normalized, Slices, Trained, AllVectors;
    forall i | 0 <= i < |codebook| ensures |codebook[i]| == s.subdimension && Normalized(codebook[i]) {
      TrainedEntry(codebook, xs, s, traces, iterations, i);
    }
  }

  /** Every codebook entry is some entry of some subspace's part. */
  lemma EntryInBook(codebook: seq<Point>, i: nat, k: nat, subquantizers: nat) returns (sub: nat, r: nat)
    requires k > 0 && i < |codebook| == subquantizers * k
    ensures sub < subquantizers && r < k && sub * k + k <= |codebook|
    ensures Book(codebook, sub, k)[r] == codebook[i]
  {
    sub, r := i / k, i % k;
    SlotBelow(i, k, subquantizers);
    Consecutive(sub, subquantizers, k);
    assert i == sub * k + r;
  }

  lemma TrainedEntry(codebook: seq<Point>, xs: seq<Point>, s: Shape, traces: seq<Trace>, iterations: nat, i: nat)
    requires s.Valid() && AllVectors(xs, s) && AllNormalized(xs) && |codebook| == s.subquantizers * s.centroids
    requires Trained(codebook, xs, s, traces, iterations, s.subquantizers) && i < |codebook|
    ensures |codebook[i]| == s.subdimension && Normalized(codebook[i])
  {
    hide TrainedPart, Trained, AllVectors, Normalized, Book, Power2;
    var sub, r := EntryInBook(codebook, i, s.centroids, s.subquantizers);
    TrainedAt(codebook, xs, s, traces, iterations, sub);
    PartShape(Book(codebook, sub, s.centroids), xs, s, sub, traces[sub], iterations);
  }

  lemma TrainedAt(codebook: seq<Point>, xs: seq<Point>, s: Shape, traces: seq<Trace>, iterations: nat, sub: nat)
    requires AllVectors(xs, s) && |codebook| == s.subquantizers * s.centroids && sub < s.subquantizers
    requires Trained(codebook, xs, s, traces, iterations, s.subquantizers)
    ensures |traces| == s.subquantizers && sub * s.centroids + s.centroids <= |codebook|
    ensures TrainedPart(Book(codebook, sub, s.centroids), xs, s, sub, traces[sub], iterations)
  {
    hide TrainedPart, AllVectors, Book;
    Consecutive(sub, s.subquantizers, s.centroids);
  }

  lemma PartShape(part: seq<Point>, xs: seq<Point>, s: Shape, sub: nat, books: Trace, iterations: nat)
    requires AllVectors(xs, s) && AllNormalized(xs) && sub < s.subquantizers
    requires TrainedPart(part, xs, s, sub, books, iterations)
    ensures Uniform(part, s.subdimension) && AllNormalized(part)
  {
    hide Traced, Normalized;
    var ys := Slices(xs, s, sub);
    Consecutive(sub, s.subquantizers, s.subdimension);
    forall i | 0 <= i < |ys| ensures Normalized(ys[i]) {
      SliceNormalized(xs[i], sub, s.subdimension);
    }
    FirstNormalized(books[0], ys);
    TraceShape(ys, books, s.subdimension, iterations);
    TraceNormalized(ys, books, s.subdimension, iterations);
  }

  lemma FirstNormalized(seeds: seq<Point>, ys: seq<Point>)
    requires AllFrom(seeds, ys) && AllNormalized(ys)
    ensures AllNormalized(seeds)
  {
    hide Normalized;
  }

  lemma SliceNormalized(x: Point, sub: nat, width: nat)
    requires sub * width + width <= |x| && Normalized(x)
    ensures Normalized(Subvector(x, sub, width))
  {
  }

  method TrainPart(xs: seq<Point>, s: Shape, sub: nat, book: array<Point>, base: nat, iterations: nat,
    assignments: array<nat>, minimum: array<real>, generator: Generator) returns (ghost books: Trace)
    requires s.Valid() && AllVectors(xs, s) && |xs| > 0 && sub < s.subquantizers
    requires base + s.centroids <= book.Length && assignments.Length == minimum.Length == |xs|
    modifies book, assignments, minimum, generator
    ensures TrainedPart(book[base..base + s.centroids], xs, s, sub, books, iterations)
    ensures book[..base] == old(book[..base])
  {
    hide Traced, Slices, Uniform, Power2, AllFrom, AllVectors, Spread;
    books := TrainSubspace(Slices(xs, s, sub), s.subdimension, book, base, s.centroids, iterations, assignments,
        minimum, generator);
  }

  /** Where a subspace's entries lie in the codebook. */
  lemma SlotsInside(s: Shape, sub: nat, base: nat, size: nat)
    requires sub < s.subquantizers && base == sub * s.centroids && size == s.subquantizers * s.centroids
    ensures base + s.centroids <= size
  {
    Consecutive(sub, s.subquantizers, s.centroids);
  }

  lemma SlotsTrained(before: seq<Point>, after: seq<Point>, xs: seq<Point>, s: Shape, traces: seq<Trace>,
      next: Trace, iterations: nat, sub: nat, base: nat)
    requires AllVectors(xs, s) && sub < s.subquantizers && |before| == |after| == s.subquantizers * s.centroids
    requires base == sub * s.centroids && base + s.centroids <= |after|
    requires Trained(before, xs, s, traces, iterations, sub) && after[..base] == before[..base]
    requires TrainedPart(after[base..base + s.centroids], xs, s, sub, next, iterations)
    ensures Trained(after, xs, s, traces + [next], iterations, sub + 1)
  {
    hide Trained, TrainedPart, AllVectors;
    TrainedNext(before, after, xs, s, traces, next, iterations, sub);
  }

  /** Trains subspace after subspace into one codebook. */
  method TrainCodebook(xs: seq<Point>, s: Shape, iterations: nat, generator: Generator)
    returns (codebook: seq<Point>, ghost traces: seq<Trace>)
    requires s.Valid() && AllVectors(xs, s) && |xs| > 0
    modifies generator
    ensures |codebook| == s.subquantizers * s.centroids
    ensures Trained(codebook, xs, s, traces, iterations, s.subquantizers)
  {
    hide Trained, TrainedPart, Power2, AllVectors, Book;
    var book := new Point[s.subquantizers * s.centroids](_ => []);
    var assignments := new nat[|xs|];
    var minimum := new real[|xs|];
    traces := [];
    NothingTrained(book[..], xs, s, iterations);
    for sub := 0 to s.subquantizers
      invariant Trained(book[..], xs, s, traces, iterations, sub)
    {
      ghost var before := book[..];
      var base := sub * s.centroids;
      SlotsInside(s, sub, base, book.Length);
      var next := TrainPart(xs, s, sub, book, base, iterations, assignments, minimum, generator);
      SlotsTrained(before, book[..], xs, s, traces, next, iterations, sub, base);
      traces := traces + [next];
    }
    codebook := book[..];
  }

  lemma NothingTrained(codebook: seq<Point>, xs: seq<Point>, s: Shape, iterations: nat)
    requires AllVectors(xs, s) && |codebook| == s.subquantizers * s.centroids
    ensures Trained(codebook, xs, s, [], iterations, 0)
  {
  }

  // ---------- the whole of training ----------

  /** The first offending embedding, if any, decides the error. */
  predicate Offends(embeddings: seq<Point>, dimension: nat, error: TrainError) {
    exists i :: 0 <= i < |embeddings|
      && (forall j :: 0 <= j < i ==> |embeddings[j]| == dimension && Normalized(embeddings[j]))
      && (|embeddings[i]| != dimension || !Normalized(embeddings[i]))
      && error == if |embeddings[i]| != dimension then DimensionsDiffer else NotNormalized
  }

  method CheckEmbeddings(embeddings: seq<Point>, dimension: nat) returns (r: Result<(), TrainError>)
    ensures r.Ok? <==> Uniform(embeddings, dimension) && AllNormalized(embeddings)
    ensures r.Err? ==> Offends(embeddings, dimension, r.error)
  {
    hide Normalized;
    for i := 0 to |embeddings|
      invariant forall j :: 0 <= j < i ==> |embeddings[j]| == dimension && Normalized(embeddings[j])
    {
      if |embeddings[i]| != dimension {
        return Err(DimensionsDiffer);
      }
      if !Normalized(embeddings[i]) {
        return Err(NotNormalized);
      }
    }
    r := Ok(());
  }

  function ShapeOf(m: Model): Shape {
    Shape(m.subquantizers, m.bits, m.centroids, m.subdimension)
  }

  function Sampled(embeddings: seq<Point>, ids: seq<nat>): (xs: seq<Point>)
    requires forall i :: 0 <= i < |ids| ==> ids[i] < |embeddings|
    ensures |xs| == |ids|
    ensures forall i :: 0 <= i < |ids| ==> xs[i] == embeddings[ids[i]]
  {
    seq(|ids|, i requires 0 <= i < |ids| => embeddings[ids[i]])
  }

  /** A model, the samples it was trained on and its stored codes belong together. */
  ghost predicate FaithfulModel(m: Model, embeddings: seq<Point>, ids: seq<nat>, traces: seq<Trace>, iterations: nat) {
    && ValidModel(m)
    && (forall i :: 0 <= i < |ids| ==> ids[i] < |embeddings|)
    && AllVectors(embeddings, ShapeOf(m))
    && Trained(m.codebook, Sampled(embeddings, ids), ShapeOf(m), traces, iterations, m.subquantizers)
    && |m.codes| == |embeddings| * BytesPerVector(m.subquantizers, m.bits)
    && forall node :: 0 <= node < |embeddings| ==>
         StoresNode(m, node) && StoredCodes(m, node) == Best(m.codebook, embeddings[node], ShapeOf(m))
  }

  method Train(embeddings: seq<Point>, subquantizers: nat, bits: nat, iterations: nat, maxSamples: nat,
      generator: Generator)
    returns (r: Result<Model, TrainError>, ids: seq<nat>, ghost traces: seq<Trace>)
    modifies generator
    ensures |embeddings| == 0 ==> r == Err(NoEmbeddings)
    ensures |embeddings| > 0 ==>
      var dimension := |embeddings[0]|;
      if dimension == 0 || subquantizers == 0 || dimension % subquantizers != 0 then r == Err(UnevenSubquantizers)
      else if bits == 0 || bits > 8 then r == Err(BitsOutOfRange)
      else if iterations == 0 || maxSamples == 0 then r == Err(CountsNotPositive)
      else if !(Uniform(embeddings, dimension) && AllNormalized(embeddings)) then
        r.Err? && Offends(embeddings, dimension, r.error)
      else
        && r.Ok? && r.value.subquantizers == subquantizers && r.value.bits == bits && r.value.dimension == dimension
        && Samples(ids, |embeddings|, maxSamples)
        && r.value.centroids == (if Power2(bits) < |ids| then Power2(bits) else |ids|)
        && FaithfulModel(r.value, embeddings, ids, traces, iterations)
  {
    hide Trained, Encoded, Normalized, Samples, Offends, StoredCodes, Best, Power2, BytesPerVector;
    ids, traces := [], [];
    if |embeddings| == 0 {
      return Err(NoEmbeddings), ids, traces;
    }
    var dimension := |embeddings[0]|;
    if dimension == 0 || subquantizers == 0 || dimension % subquantizers != 0 {
      return Err(UnevenSubquantizers), ids, traces;
    }
    if bits == 0 || bits > 8 {
      return Err(BitsOutOfRange), ids, traces;
    }
    if iterations == 0 || maxSamples == 0 {
      return Err(CountsNotPositive), ids, traces;
    }
    var checked := CheckEmbeddings(embeddings, dimension);
    if checked.Err? {
      return Err(checked.error), ids, traces;
    }
    ids := ChooseSamples(|embeddings|, maxSamples, generator);
    SampleFacts(ids, |embeddings|, maxSamples);
    var centroids := if Power2(bits) < |ids| then Power2(bits) else |ids|;
    var s := Shape(subquantizers, bits, centroids, dimension / subquantizers);
    ShapeIsValid(s, dimension);
    var xs := Sampled(embeddings, ids);
    var codebook;
    codebook, traces := TrainCodebook(xs, s, iterations, generator);
    TrainedShape(codebook, xs, s, traces, iterations);
    var codes := EncodeAll(codebook, embeddings, s);
    var m := Model(dimension, subquantizers, bits, centroids, dimension / subquantizers, codebook, codes);
    forall node | 0 <= node < |embeddings|
      ensures StoresNode(m, node) && StoredCodes(m, node) == Best(codebook, embeddings[node], s)
    {
      StoredIsBest(m, embeddings, s, node);
    }
    r := Ok(m);
  }

  lemma SampleFacts(ids: seq<nat>, count: nat, limit: nat)
    requires Samples(ids, count, limit) && count > 0 && limit > 0
    ensures |ids| > 0 && forall i :: 0 <= i < |ids| ==> ids[i] < count
  {
  }

  lemma ShapeIsValid(s: Shape, dimension: nat)
    requires s.subquantizers > 0 && dimension > 0 && dimension % s.subquantizers == 0
    requires s.subdimension == dimension / s.subquantizers
    requires 1 <= s.bits <= 8 && 0 < s.centroids <= Power2(s.bits)
    ensures s.Valid() && dimension == s.subquantizers * s.subdimension
  {
    assert dimension == s.subquantizers * (dimension / s.subquantizers) + dimension % s.subquantizers;
  }

  /** End to end: for every node the fast distance is one minus the product with
      its reconstruction, and no tuple of codes reconstructs the node better. */
  lemma TrainedModelAnswers(m: Model, embeddings: seq<Point>, ids: seq<nat>, traces: seq<Trace>, iterations: nat,
    query: Point, node: nat, other: seq<nat>)
    requires FaithfulModel(m, embeddings, ids, traces, iterations)
    requires |query| == m.dimension && node < |embeddings| && Tuple(other, m.subquantizers, m.centroids)
    ensures Shaped(m) && Tuple(StoredCodes(m, node), m.subquantizers, m.centroids)
    ensures var chosen := Decode(m.codebook, m.centroids, StoredCodes(m, node));
      && |chosen| == |query| == |embeddings[node]| == |Decode(m.codebook, m.centroids, other)|
      && 1.0 + TableSum(Table(m, query), m.centroids, StoredCodes(m, node)) == 1.0 - Dot(query, chosen)
      && Distance(embeddings[node], chosen) <= Distance(embeddings[node], Decode(m.codebook, m.centroids, other))
  {
    hide Distance, Dot, Decode, TableSum, Table, StoredCodes, Trained, Tuple;
    CodesAreOptimal(m.codebook, embeddings[node], m.subquantizers, m.centroids, m.subdimension, other);
    FastEqualsSlow(m, query, StoredCodes(m, node));
  }
}
