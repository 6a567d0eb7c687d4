/**
 * Product quantization: training, encoding, and the table-driven distance. The
 * codes chosen are the best of the whole product codebook, and the fast
 * distance equals the slow one.
 */
module ProductQuantizer {
  import Bytes
  import opened Outcomes
  import opened Vectors
  import opened Lloyd
  import opened SubspaceTraining
  import opened BitPacking

  datatype Model = Model(
    dimension: nat, subquantizers: nat, bits: nat, centroids: nat, subdimension: nat,
    codebook: seq<Point>, codes: seq<bv8>)

  function BytesPerVector(subquantizers: nat, bits: nat): nat {
    (subquantizers * bits + 7) / 8
  }

  /** 1 << bits */
  function Power2(bits: nat): (p: nat)
    ensures p > 0
  {
    if bits == 0 then 1 else 2 * Power2(bits - 1)
  }

  // ---------- the product codebook ----------

  /** Coordinates of one subspace. */
  function Subvector(x: Point, sub: nat, width: nat): (v: Point)
    requires sub * width + width <= |x|
    ensures |v| == width
  {
    x[sub * width..sub * width + width]
  }

  /** The centroids of one subspace. */
  function Book(codebook: seq<Point>, sub: nat, k: nat): (book: seq<Point>)
    requires sub * k + k <= |codebook|
    ensures |book| == k
  {
    codebook[sub * k..sub * k + k]
  }

  predicate Tuple(t: seq<nat>, subquantizers: nat, k: nat) {
    |t| == subquantizers && forall i :: 0 <= i < |t| ==> t[i] < k
  }

  /** The vector a tuple of codes stands for: the chosen centroids side by side. */
  function Decode(codebook: seq<Point>, k: nat, t: seq<nat>): Point
    requires |t| * k <= |codebook| && forall i :: 0 <= i < |t| ==> t[i] < k
  {
    if |t| == 0 then []
    else
      var n := |t| - 1;
      Consecutive(n, |t|, k);
      Decode(codebook, k, t[..n]) + Book(codebook, n, k)[t[n]]
  }

  /** Shapes of a codebook and a vector that fit together. */
  predicate Fits(codebook: seq<Point>, x: Point, subquantizers: nat, k: nat, width: nat) {
    |codebook| == subquantizers * k && Uniform(codebook, width) && |x| == subquantizers * width && k > 0
  }

  lemma BookUniform(codebook: seq<Point>, sub: nat, subquantizers: nat, k: nat, width: nat)
    requires |codebook| == subquantizers * k && Uniform(codebook, width) && sub < subquantizers
    ensures sub * k + k <= |codebook| && Uniform(Book(codebook, sub, k), width)
  {
    Consecutive(sub, subquantizers, k);
  }

  /** The code of each subspace: its nearest centroid. */
  function BestCodes(codebook: seq<Point>, x: Point, subquantizers: nat, k: nat, width: nat): (t: seq<nat>)
    requires Fits(codebook, x, subquantizers, k, width)
    ensures Tuple(t, subquantizers, k)
  {
    seq(subquantizers, sub requires 0 <= sub < subquantizers =>
      Consecutive(sub, subquantizers, width);
      BookUniform(codebook, sub, subquantizers, k, width);
      Nearest(Subvector(x, sub, width), Book(codebook, sub, k)))
  }

  lemma DecodeStep(codebook: seq<Point>, t: seq<nat>, subquantizers: nat, k: nat, n: nat)
    requires |codebook| == subquantizers * k && Tuple(t, subquantizers, k) && n < subquantizers
    ensures n * k + k == (n + 1) * k <= |codebook|
    ensures Decode(codebook, k, t[..n + 1]) == Decode(codebook, k, t[..n]) + Book(codebook, n, k)[t[n]]
  {
    hide Decode, Book;
    Consecutive(n, subquantizers, k);
    assert t[..n + 1][..n] == t[..n];
    DecodeLast(codebook, k, t[..n + 1]);
  }

  lemma DecodeLast(codebook: seq<Point>, k: nat, t: seq<nat>)
    requires |t| > 0 && |t| * k <= |codebook| && forall i :: 0 <= i < |t| ==> t[i] < k
    ensures var n := |t| - 1;
            && n * k <= |codebook| && n * k + k <= |codebook|
            && Decode(codebook, k, t) == Decode(codebook, k, t[..n]) + Book(codebook, n, k)[t[n]]
  {
    hide Book;
    Consecutive(|t| - 1, |t|, k);
  }

  lemma VectorStep(x: Point, subquantizers: nat, width: nat, n: nat)
    requires |x| == subquantizers * width && n < subquantizers
    ensures n * width + width == (n + 1) * width <= |x|
    ensures x[..(n + 1) * width] == x[..n * width] + Subvector(x, n, width)
  {
    Consecutive(n, subquantizers, width);
  }

  /** A better front and a better last part make a better whole. */
  lemma ConcatCloser(front: Point, last: Point, a: Point, b: Point, v: Point, w: Point)
    requires |front| == |a| == |b| && |last| == |v| == |w|
    requires Distance(front, a) <= Distance(front, b) && Distance(last, v) <= Distance(last, w)
    ensures Distance(front + last, a + v) <= Distance(front + last, b + w)
  {
    DistanceConcat(front, last, a, v);
    DistanceConcat(front, last, b, w);
  }

  lemma BestAt(codebook: seq<Point>, x: Point, subquantizers: nat, k: nat, width: nat, i: nat, other: nat)
    requires Fits(codebook, x, subquantizers, k, width) && i < subquantizers && other < k
    ensures i * width + width <= |x| && i * k + k <= |codebook|
    ensures Uniform(Book(codebook, i, k), width)
    ensures var best := BestCodes(codebook, x, subquantizers, k, width)[i];
      best < k && Distance(Subvector(x, i, width), Book(codebook, i, k)[best])
               <= Distance(Subvector(x, i, width), Book(codebook, i, k)[other])
  {
    hide Distance, Nearest;
    Consecutive(i, subquantizers, width);
    BookUniform(codebook, i, subquantizers, k, width);
    assert IsNearest(Subvector(x, i, width), Book(codebook, i, k), BestCodes(codebook, x, subquantizers, k, width)[i]);
  }

  /** Per-subspace minimisation is minimisation over all tuples, one subspace after the other. */
  lemma {:induction false} BestPrefix(codebook: seq<Point>, x: Point, subquantizers: nat, k: nat, width: nat,
      t: seq<nat>, n: nat)
    requires Fits(codebook, x, subquantizers, k, width) && Tuple(t, subquantizers, k) && n <= subquantizers
    ensures var best := BestCodes(codebook, x, subquantizers, k, width);
      && n * k <= |codebook| && n * width <= |x|
      && |Decode(codebook, k, best[..n])| == |Decode(codebook, k, t[..n])| == n * width
      && Distance(x[..n * width], Decode(codebook, k, best[..n])) <= Distance(x[..n * width], Decode(codebook, k,
          t[..n]))
    decreases n
  {
    hide Distance, Nearest, Decode, BestCodes;
    var best := BestCodes(codebook, x, subquantizers, k, width);
    if n == 0 {
      DecodeNothing(codebook, k, best[..0]);
      DecodeNothing(codebook, k, t[..0]);
      assert x[..0] == [];
    } else {
      var m := n - 1;
      BestPrefix(codebook, x, subquantizers, k, width, t, m);
      VectorStep(x, subquantizers, width, m);
      DecodeStep(codebook, best, subquantizers, k, m);
      DecodeStep(codebook, t, subquantizers, k, m);
      BestAt(codebook, x, subquantizers, k, width, m, t[m]);
      ConcatCloser(x[..m * width], Subvector(x, m, width),
        Decode(codebook, k, best[..m]), Decode(codebook, k, t[..m]),
        Book(codebook, m, k)[best[m]], Book(codebook, m, k)[t[m]]);
    }
  }

  lemma DecodeNothing(codebook: seq<Point>, k: nat, t: seq<nat>)
    requires |t| == 0
    ensures Decode(codebook, k, t) == []
  {
  }

  /** The chosen codes minimise the distance to the reconstruction over every tuple of the product codebook. */
  lemma CodesAreOptimal(codebook: seq<Point>, x: Point, subquantizers: nat, k: nat, width: nat, t: seq<nat>)
    requires Fits(codebook, x, subquantizers, k, width) && Tuple(t, subquantizers, k)
    ensures var best := BestCodes(codebook, x, subquantizers, k, width);
      && Tuple(best, subquantizers, k)
      && |Decode(codebook, k, best)| == |Decode(codebook, k, t)| == |x|
      && Distance(x, Decode(codebook, k, best)) <= Distance(x, Decode(codebook, k, t))
  {
    hide Distance, Decode;
    BestPrefix(codebook, x, subquantizers, k, width, t, subquantizers);
    assert x[..|x|] == x && t[..subquantizers] == t;
    assert BestCodes(codebook, x, subquantizers, k, width)[..subquantizers] == BestCodes(codebook, x, subquantizers,
        k, width);
  }

  // ---------- the distance table ----------

  /** A model whose parts fit together and whose centroids are in range. */
  predicate ValidModel(m: Model) {
    && m.subquantizers > 0 && m.subdimension > 0 && m.centroids > 0
    && 1 <= m.bits <= 8 && m.centroids <= Power2(m.bits)
    && m.dimension == m.subquantizers * m.subdimension
    && |m.codebook| == m.subquantizers * m.centroids
    && Uniform(m.codebook, m.subdimension) && AllNormalized(m.codebook)
  }

  /** The shape alone, as a loaded index guarantees it. */
  predicate Shaped(m: Model) {
    && m.subquantizers > 0 && m.centroids > 0 && 1 <= m.bits <= 8
    && m.dimension == m.subquantizers * m.subdimension
    && |m.codebook| == m.subquantizers * m.centroids
    && Uniform(m.codebook, m.subdimension)
  }

  /** Slot sub * k + c belongs to subspace sub. */
  lemma SlotOf(sub: nat, c: nat, k: nat)
    requires c < k
    ensures (sub * k + c) / k == sub
  {
    Bytes.DivideUnique(sub * k + c, k, sub, c);
  }

  lemma SlotBelow(i: nat, k: nat, subquantizers: nat)
    requires k > 0 && i < subquantizers * k
    ensures i / k < subquantizers
  {
  }

  /** Table entry: minus the product of the query's part with the slot's centroid. */
  function Entry(m: Model, query: Point, slot: nat): real
    requires Shaped(m) && |query| == m.dimension && slot < |m.codebook|
  {
    SlotBelow(slot, m.centroids, m.subquantizers);
    Consecutive(slot / m.centroids, m.subquantizers, m.subdimension);
    -Dot(Subvector(query, slot / m.centroids, m.subdimension), m.codebook[slot])
  }

  function Table(m: Model, query: Point): (table: seq<real>)
    requires Shaped(m) && |query| == m.dimension
    ensures |table| == |m.codebook|
  {
    seq(|m.codebook|, slot requires 0 <= slot < |m.codebook| => Entry(m, query, slot))
  }

  datatype TableError = QueryDimensionMismatch | QueryNotNormalized | CodebookOutOfRange

  method NegativeDot(query: Point, centroid: Point) returns (r: Result<real, TableError>)
    requires |query| == |centroid|
    ensures r == if Normalized(centroid) then Ok(-Dot(query, centroid)) else Err(CodebookOutOfRange)
  {
    var negativeDot := 0.0;
    for coordinate := 0 to |query|
      invariant negativeDot == -Dot(query[..coordinate], centroid[..coordinate])
      invariant forall i :: 0 <= i < coordinate ==> -1.0 <= centroid[i] <= 1.0
    {
      if centroid[coordinate] > 1.0 || centroid[coordinate] < -1.0 {
        return Err(CodebookOutOfRange);
      }
      assert query[..coordinate + 1][..coordinate] == query[..coordinate];
      assert centroid[..coordinate + 1][..coordinate] == centroid[..coordinate];
      negativeDot := negativeDot - query[coordinate] * centroid[coordinate];
    }
    assert query[..|query|] == query && centroid[..|centroid|] == centroid;
    r := Ok(negativeDot);
  }

  /** `distance_table` */
  method DistanceTable(m: Model, query: Point) returns (r: Result<seq<real>, TableError>)
    requires Shaped(m)
    ensures r ==
      if |query| != m.dimension then Err(QueryDimensionMismatch)
      else if !Normalized(query) then Err(QueryNotNormalized)
      else if !AllNormalized(m.codebook) then Err(CodebookOutOfRange)
      else Ok(Table(m, query))
  {
    hide Dot, Normalized, Table, AllNormalized, Shaped;
    if |query| != m.dimension {
      return Err(QueryDimensionMismatch);
    }
    if !Normalized(query) {
      return Err(QueryNotNormalized);
    }
    ShapeFacts(m);
    var table := new real[m.subquantizers * m.centroids];
    var ok := FillTable(m, query, table);
    r := if ok then Ok(table[..]) else Err(CodebookOutOfRange);
  }

  method FillTable(m: Model, query: Point, table: array<real>) returns (ok: bool)
    requires Shaped(m) && |query| == m.dimension && table.Length == |m.codebook|
    modifies table
    ensures ok == AllNormalized(m.codebook)
    ensures ok ==> table[..] == Table(m, query)
  {
    hide Dot, Normalized, Table, AllNormalized, Shaped;
    ghost var filled: nat := 0;
    NothingOutOfRange();
    assert m.codebook[..0] == [];
    for sub := 0 to m.subquantizers
      invariant filled == sub * m.centroids <= |m.codebook|
      invariant table[..filled] == Table(m, query)[..filled]
      invariant AllNormalized(m.codebook[..filled])
    {
      NextRow(m, sub);
      ok := TableRow(m, query, sub, table);
      if !ok {
        return;
      }
      filled := filled + m.centroids;
    }
    ShapeFacts(m);
    assert m.codebook[..filled] == m.codebook;
    assert table[..filled] == table[..];
    ok := true;
  }

  lemma NextRow(m: Model, sub: nat)
    requires Shaped(m) && sub < m.subquantizers
    ensures sub * m.centroids + m.centroids == (sub + 1) * m.centroids <= |m.codebook|
  {
    Consecutive(sub, m.subquantizers, m.centroids);
  }

  lemma NothingOutOfRange()
    ensures AllNormalized([])
  {
  }

  /** The entries of one subspace. */
  method TableRow(m: Model, query: Point, sub: nat, table: array<real>) returns (ok: bool)
    requires Shaped(m) && |query| == m.dimension && sub < m.subquantizers && table.Length == |m.codebook|
    requires sub * m.centroids + m.centroids <= |m.codebook|
    requires table[..sub * m.centroids] == Table(m, query)[..sub * m.centroids]
    requires AllNormalized(m.codebook[..sub * m.centroids])
    modifies table
    ensures !ok ==> !AllNormalized(m.codebook)
    ensures ok ==>
      && table[..sub * m.centroids + m.centroids] == Table(m, query)[..sub * m.centroids + m.centroids]
      && AllNormalized(m.codebook[..sub * m.centroids + m.centroids])
  {
    hide Dot, Normalized;
    var base := sub * m.centroids;
    Consecutive(sub, m.subquantizers, m.subdimension);
    var part := Subvector(query, sub, m.subdimension);
    for centroid := 0 to m.centroids
      invariant table[..base + centroid] == Table(m, query)[..base + centroid]
      invariant AllNormalized(m.codebook[..base + centroid])
    {
      var slot := base + centroid;
      SlotOf(sub, centroid, m.centroids);
      var entry := NegativeDot(part, m.codebook[slot]);
      if entry.Err? {
        return false;
      }
      assert entry.value == Entry(m, query, slot);
      table[slot] := entry.value;
      Extend(table[..], Table(m, query), slot);
      assert m.codebook[..slot + 1] == m.codebook[..slot] + [m.codebook[slot]];
    }
    ok := true;
  }

  lemma Extend(a: seq<real>, b: seq<real>, n: nat)
    requires n < |a| == |b| && a[..n] == b[..n] && a[n] == b[n]
    ensures a[..n + 1] == b[..n + 1]
  {
  }

  // ---------- the fast distance ----------

  lemma BytesSuffice(subquantizers: nat, bits: nat)
    requires subquantizers > 0 && bits > 0
    ensures BytesPerVector(subquantizers, bits) > 0
    ensures subquantizers * bits <= 8 * BytesPerVector(subquantizers, bits)
  {
    Consecutive(0, subquantizers, bits);
  }

  /** A node's bytes lie inside the code buffer. */
  lemma NodeFits(node: nat, bytes: nat, length: nat)
    requires bytes > 0 && node < length / bytes
    ensures node * bytes + bytes <= length
  {
    assert length == (length / bytes) * bytes + length % bytes;
    Consecutive(node, length / bytes, bytes);
  }

  /** The bit at which a node's codes begin. */
  function NodeStart(subquantizers: nat, bits: nat, node: nat): nat {
    8 * (node * BytesPerVector(subquantizers, bits))
  }

  predicate StoresNode(m: Model, node: nat) {
    1 <= m.bits <= 8 && NodeStart(m.subquantizers, m.bits, node) + m.subquantizers * m.bits <= 8 * |m.codes|
  }

  /** One code of a node, as stored. */
  function StoredCode(m: Model, node: nat, sub: nat): bv32
    requires StoresNode(m, node) && sub < m.subquantizers
  {
    Consecutive(sub, m.subquantizers, m.bits);
    UnpackCode(m.codes, NodeStart(m.subquantizers, m.bits, node) + sub * m.bits, m.bits)
  }

  /** A node's codes begin on a byte, take the fewest bytes that hold them, and follow one another bit by bit. */
  lemma StoredCodePlace(m: Model, node: nat, sub: nat, j: nat)
    requires StoresNode(m, node) && sub < m.subquantizers && j < m.bits
    ensures var bytes := BytesPerVector(m.subquantizers, m.bits);
            && m.subquantizers * m.bits <= 8 * bytes < m.subquantizers * m.bits + 8
            && 0 <= 8 * (node * bytes) + sub * m.bits + j < 8 * |m.codes|
            && Bit(Octet(StoredCode(m, node, sub)), j) == BitAt(m.codes, 8 * (node * bytes) + sub * m.bits + j)
  {
    hide UnpackCode, Bit, Octet, BitAt;
    Consecutive(sub, m.subquantizers, m.bits);
    UnpackedBits(m.codes, NodeStart(m.subquantizers, m.bits, node) + sub * m.bits, m.bits, j);
  }

  function StoredCodes(m: Model, node: nat): (t: seq<nat>)
    requires StoresNode(m, node)
    ensures |t| == m.subquantizers
  {
    seq(m.subquantizers, sub requires 0 <= sub < m.subquantizers => StoredCode(m, node, sub) as int)
  }

  /** What the table adds up for a tuple of codes. */
  function TableSum(table: seq<real>, k: nat, t: seq<nat>): real
    requires |t| * k <= |table| && forall i :: 0 <= i < |t| ==> t[i] < k
  {
    if |t| == 0 then 0.0
    else
      var n := |t| - 1;
      Consecutive(n, |t|, k);
      TableSum(table, k, t[..n]) + table[n * k + t[n]]
  }

  /** Adding table entries is taking one long inner product with the decoded vector. */
  lemma {:induction false} TableSumIsProduct(m: Model, query: Point, t: seq<nat>, n: nat)
    requires Shaped(m) && |query| == m.dimension && Tuple(t, m.subquantizers, m.centroids) && n <= m.subquantizers
    ensures n * m.centroids <= |m.codebook| && n * m.subdimension <= |query|
    ensures |Decode(m.codebook, m.centroids, t[..n])| == n * m.subdimension
    ensures TableSum(Table(m, query), m.centroids, t[..n])
         == -Dot(query[..n * m.subdimension], Decode(m.codebook, m.centroids, t[..n]))
    decreases n
  {
    hide Dot, Decode, Table, Shaped;
    if n == 0 {
      DecodeNothing(m.codebook, m.centroids, t[..0]);
      assert query[..0] == [];
      DotNothing();
    } else {
      var l := n - 1;
      TableSumIsProduct(m, query, t, l);
      ShapeFacts(m);
      VectorStep(query, m.subquantizers, m.subdimension, l);
      DecodeStep(m.codebook, t, m.subquantizers, m.centroids, l);
      BookUniform(m.codebook, l, m.subquantizers, m.centroids, m.subdimension);
      var part, centroid := Subvector(query, l, m.subdimension), Book(m.codebook, l, m.centroids)[t[l]];
      DotConcat(query[..l * m.subdimension], part, Decode(m.codebook, m.centroids, t[..l]), centroid);
      EntryOf(m, query, l, t[l]);
      assert t[..n][..l] == t[..l];
    }
  }

  lemma DotNothing()
    ensures Dot([], []) == 0.0
  {
  }

  lemma ShapeFacts(m: Model)
    requires Shaped(m)
    ensures m.dimension == m.subquantizers * m.subdimension && |m.codebook| == m.subquantizers * m.centroids
    ensures Uniform(m.codebook, m.subdimension) && m.centroids > 0
  {
  }

  lemma EntryOf(m: Model, query: Point, sub: nat, c: nat)
    requires Shaped(m) && |query| == m.dimension && sub < m.subquantizers && c < m.centroids
    ensures sub * m.subdimension + m.subdimension <= |query| && sub * m.centroids + m.centroids <= |m.codebook|
    ensures |Book(m.codebook, sub, m.centroids)[c]| == m.subdimension
    ensures Table(m, query)[sub * m.centroids + c]
         == -Dot(Subvector(query, sub, m.subdimension), Book(m.codebook, sub, m.centroids)[c])
  {
    hide Dot;
    Consecutive(sub, m.subquantizers, m.subdimension);
    Consecutive(sub, m.subquantizers, m.centroids);
    SlotOf(sub, c, m.centroids);
  }

  datatype DistanceError = TableSizeMismatch | NodeOutOfRange | InvalidCode

  /** `approximate_distance` */
  method ApproximateDistance(m: Model, table: seq<real>, node: nat) returns (r: Result<real, DistanceError>)
    requires m.subquantizers > 0 && 1 <= m.bits <= 8
    ensures |table| != m.subquantizers * m.centroids ==> r == Err(TableSizeMismatch)
    ensures |table| == m.subquantizers * m.centroids && node >= |m.codes| / BytesPerVector(m.subquantizers, m.bits)
      ==> r == Err(NodeOutOfRange)
    ensures |table| == m.subquantizers * m.centroids && node < |m.codes| / BytesPerVector(m.subquantizers, m.bits) ==>
      && StoresNode(m, node)
      && r == if Tuple(StoredCodes(m, node), m.subquantizers, m.centroids)
              then Ok(1.0 + TableSum(table, m.centroids, StoredCodes(m, node)))
              else Err(InvalidCode)
  {
    hide StoredCode;
    BytesSuffice(m.subquantizers, m.bits);
    if |table| != m.subquantizers * m.centroids {
      return Err(TableSizeMismatch);
    }
    var bytes := BytesPerVector(m.subquantizers, m.bits);
    if node >= |m.codes| / bytes {
      return Err(NodeOutOfRange);
    }
    NodeFits(node, bytes, |m.codes|);
    r := AddEntries(m, table, node);
  }

  lemma NoSum(table: seq<real>, k: nat)
    ensures TableSum(table, k, []) == 0.0
  {
  }

  lemma SumStep(table: seq<real>, k: nat, t: seq<nat>, n: nat)
    requires n < |t| && |t| * k <= |table| && forall i :: 0 <= i <= n ==> t[i] < k
    ensures 0 <= n * k && n * k + k <= (n + 1) * k <= |table|
    ensures TableSum(table, k, t[..n + 1]) == TableSum(table, k, t[..n]) + table[n * k + t[n]]
  {
    Consecutive(n, |t|, k);
    assert t[..n + 1][..n] == t[..n];
  }

  method AddEntries(m: Model, table: seq<real>, node: nat) returns (r: Result<real, DistanceError>)
    requires StoresNode(m, node) && |table| == m.subquantizers * m.centroids
    ensures r == if Tuple(StoredCodes(m, node), m.subquantizers, m.centroids)
                 then Ok(1.0 + TableSum(table, m.centroids, StoredCodes(m, node)))
                 else Err(InvalidCode)
  {
    hide StoredCode, TableSum, StoresNode;
    ghost var codes := StoredCodes(m, node);
    var result := 1.0;
    NoSum(table, m.centroids);
    assert codes[..0] == [];
    for sub := 0 to m.subquantizers
      invariant forall i :: 0 <= i < sub ==> codes[i] < m.centroids
      invariant sub * m.centroids <= |table|
      invariant result == 1.0 + TableSum(table, m.centroids, codes[..sub])
    {
      var code := StoredCode(m, node, sub) as int;
      assert code == codes[sub];
      if code >= m.centroids {
        return Err(InvalidCode);
      }
      Consecutive(sub, m.subquantizers, m.centroids);
      SumStep(table, m.centroids, codes, sub);
      result := result + table[sub * m.centroids + code];
    }
    assert codes[..m.subquantizers] == codes;
    r := Ok(result);
  }

  /** The fast form refines the slow one: looking the query's table up by a
      node's codes gives one minus the inner product with the decoded vector. */
  lemma FastEqualsSlow(m: Model, query: Point, t: seq<nat>)
    requires Shaped(m) && |query| == m.dimension && Tuple(t, m.subquantizers, m.centroids)
    ensures |Decode(m.codebook, m.centroids, t)| == |query|
    ensures 1.0 + TableSum(Table(m, query), m.centroids, t) == 1.0 - Dot(query, Decode(m.codebook, m.centroids, t))
  {
    hide Dot, Decode, Table, TableSum;
    TableSumIsProduct(m, query, t, m.subquantizers);
    assert t[..m.subquantizers] == t && query[..|query|] == query;
  }
}
