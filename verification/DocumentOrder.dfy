/** Corpus documents in rank order: by the hash of the seeded identifier, then by the identifier. */
module DocumentOrder {
  import opened Bytes
  import opened Sequences
  import Sha256
  import Sorting

  datatype Document = Document(id: Bytes, text: Bytes, positive: bool)

  function RankHash(seed: Bytes, id: Bytes): Bytes {
    Sha256.Hash(seed + id)
  }

  function TextHash(d: Document): Bytes {
    Sha256.Hash(d.text)
  }

  /** Byte strings compared as the database compares them. */
  predicate LexAtMost(a: Bytes, b: Bytes)
    decreases |a|
  {
    if |a| == 0 then true
    else if |b| == 0 then false
    else if a[0] != b[0] then a[0] < b[0]
    else LexAtMost(a[1..], b[1..])
  }

  lemma {:induction false} LexTotal(a: Bytes, b: Bytes)
    ensures LexAtMost(a, b) || LexAtMost(b, a)
    decreases |a|
  {
    if |a| > 0 && |b| > 0 && a[0] == b[0] {
      LexTotal(a[1..], b[1..]);
    }
  }

  lemma {:induction false} LexAntisymmetric(a: Bytes, b: Bytes)
    requires LexAtMost(a, b) && LexAtMost(b, a)
    ensures a == b
    decreases |a|
  {
    if |a| > 0 && |b| > 0 {
      LexAntisymmetric(a[1..], b[1..]);
      assert a == [a[0]] + a[1..] && b == [b[0]] + b[1..];
    }
  }

  lemma {:induction false} LexTransitive(a: Bytes, b: Bytes, c: Bytes)
    requires LexAtMost(a, b) && LexAtMost(b, c)
    ensures LexAtMost(a, c)
    decreases |a|
  {
    if |a| > 0 && a[0] == b[0] == c[0] {
      LexTransitive(a[1..], b[1..], c[1..]);
    }
  }

  /** a is a beginning of b, or has the smaller byte where the two first differ. */
  predicate ComesFirst(a: Bytes, b: Bytes) {
    a <= b || exists i :: 0 <= i < |a| && i < |b| && a[..i] == b[..i] && a[i] < b[i]
  }

  lemma {:induction false} LexIsComesFirst(a: Bytes, b: Bytes)
    ensures LexAtMost(a, b) <==> ComesFirst(a, b)
    decreases |a|
  {
    if |a| > 0 && |b| > 0 {
      if a[0] == b[0] {
        LexIsComesFirst(a[1..], b[1..]);
        OneByteEarlier(a, b);
      } else {
        DifferAtOnce(a, b);
      }
    }
  }

  lemma DifferAtOnce(a: Bytes, b: Bytes)
    requires |a| > 0 && |b| > 0 && a[0] != b[0]
    ensures ComesFirst(a, b) <==> a[0] < b[0]
  {
    assert a[..0] == b[..0];
    forall i | 0 < i < |a| && i < |b| ensures a[..i] != b[..i] {
      assert a[..i][0] != b[..i][0];
    }
  }

  lemma OneByteEarlier(a: Bytes, b: Bytes)
    requires |a| > 0 && |b| > 0 && a[0] == b[0]
    ensures ComesFirst(a[1..], b[1..]) <==> ComesFirst(a, b)
  {
    assert a == [a[0]] + a[1..] && b == [b[0]] + b[1..];
    if i :| 0 <= i < |a| - 1 && i < |b| - 1 && a[1..][..i] == b[1..][..i] && a[1..][i] < b[1..][i] {
      assert a[..i + 1] == [a[0]] + a[1..][..i] && b[..i + 1] == [b[0]] + b[1..][..i];
    }
    if i :| 0 <= i < |a| && i < |b| && a[..i] == b[..i] && a[i] < b[i] {
      assert a[1..][..i - 1] == a[..i][1..] && b[1..][..i - 1] == b[..i][1..];
    }
  }

  predicate Precedes(seed: Bytes, a: Document, b: Document) {
    var x, y := RankHash(seed, a.id), RankHash(seed, b.id);
    if x != y then LexAtMost(x, y) else LexAtMost(a.id, b.id)
  }

  /** By the digest of the seed and the identifier, and where those agree by the identifier. */
  predicate RanksBefore(seed: Bytes, a: Document, b: Document) {
    var x, y := Sha256.Hash(seed + a.id), Sha256.Hash(seed + b.id);
    if x != y then ComesFirst(x, y) else ComesFirst(a.id, b.id)
  }

  lemma PrecedesIsRank(seed: Bytes, a: Document, b: Document)
    ensures Precedes(seed, a, b) <==> RanksBefore(seed, a, b)
  {
    hide LexAtMost, ComesFirst, Sha256.Hash;
    LexIsComesFirst(RankHash(seed, a.id), RankHash(seed, b.id));
    LexIsComesFirst(a.id, b.id);
  }

  lemma PrecedesTotal(seed: Bytes, a: Document, b: Document)
    ensures Precedes(seed, a, b) || Precedes(seed, b, a)
    ensures Precedes(seed, a, b) && Precedes(seed, b, a) ==> a.id == b.id
  {
    hide RankHash, LexAtMost;
    var x, y := RankHash(seed, a.id), RankHash(seed, b.id);
    LexTotal(x, y);
    LexTotal(a.id, b.id);
    if LexAtMost(x, y) && LexAtMost(y, x) {
      LexAntisymmetric(x, y);
    }
    if LexAtMost(a.id, b.id) && LexAtMost(b.id, a.id) {
      LexAntisymmetric(a.id, b.id);
    }
  }

  lemma PrecedesTransitive(seed: Bytes, a: Document, b: Document, c: Document)
    requires Precedes(seed, a, b) && Precedes(seed, b, c)
    ensures Precedes(seed, a, c)
  {
    hide RankHash, LexAtMost;
    var x, y, z := RankHash(seed, a.id), RankHash(seed, b.id), RankHash(seed, c.id);
    if x == y == z {
      LexTransitive(a.id, b.id, c.id);
    } else if x != y && y != z {
      LexTransitive(x, y, z);
      if x == z {
        LexAntisymmetric(x, y);
      }
    }
  }

  function ByRank(seed: Bytes): (Document, Document) -> bool {
    (a, b) => Precedes(seed, a, b)
  }

  lemma ByRankIsOrder(seed: Bytes)
    ensures Sorting.IsOrder(ByRank(seed))
  {
    hide Precedes;
    forall x, y ensures ByRank(seed)(x, y) || ByRank(seed)(y, x) {
      PrecedesTotal(seed, x, y);
    }
    forall x, y, z | ByRank(seed)(x, y) && ByRank(seed)(y, z) ensures ByRank(seed)(x, z) {
      PrecedesTransitive(seed, x, y, z);
    }
  }

  predicate Ordered(seed: Bytes, s: seq<Document>) {
    Sorting.Ordered(ByRank(seed), s)
  }

  /** The documents in rank order. */
  function Arranged(seed: Bytes, s: seq<Document>): seq<Document> {
    Sorting.Sorted(ByRank(seed), s)
  }

  lemma ArrangedOrders(seed: Bytes, s: seq<Document>)
    ensures Ordered(seed, Arranged(seed, s)) && multiset(Arranged(seed, s)) == multiset(s)
  {
    hide Precedes;
    ByRankIsOrder(seed);
    Sorting.SortedOrders(ByRank(seed), s);
  }

  predicate DistinctIds(s: seq<Document>) {
    forall i, j :: 0 <= i < j < |s| ==> s[i].id != s[j].id
  }

  /** With identifiers that identify, there is one way to order the same documents. */
  lemma OrderIsUnique(seed: Bytes, a: seq<Document>, b: seq<Document>)
    requires Ordered(seed, a) && Ordered(seed, b) && multiset(a) == multiset(b) && DistinctIds(a)
    ensures a == b
  {
    hide Precedes, Sorting.Ordered;
    forall x, y | x in multiset(a) && y in multiset(a) && ByRank(seed)(x, y) && ByRank(seed)(y, x) ensures x == y {
      PrecedesTotal(seed, x, y);
    }
    Sorting.OrderIsUnique(ByRank(seed), a, b);
  }

  /** The order documents arrive in does not matter. */
  lemma ArrangedIgnoresOrder(seed: Bytes, a: seq<Document>, b: seq<Document>)
    requires DistinctIds(a) && multiset(a) == multiset(b)
    ensures Arranged(seed, a) == Arranged(seed, b)
  {
    hide Arranged, Ordered;
    ArrangedOrders(seed, a);
    ArrangedOrders(seed, b);
    ArrangedIds(seed, a);
    OrderIsUnique(seed, Arranged(seed, a), Arranged(seed, b));
  }

  /** No two documents of the ranking share their identifier. */
  lemma ArrangedIds(seed: Bytes, s: seq<Document>)
    requires DistinctIds(s)
    ensures DistinctIds(Arranged(seed, s))
  {
    hide Arranged, Ordered;
    ArrangedOrders(seed, s);
    SameDocuments(s, Arranged(seed, s));
  }

  lemma SameDocuments(a: seq<Document>, b: seq<Document>)
    requires DistinctIds(a) && multiset(a) == multiset(b)
    ensures DistinctIds(b)
  {
    StillDifferent(a, b);
    forall i, j | 0 <= i < j < |b| ensures b[i].id != b[j].id {
      assert b[i] in multiset(b) && b[j] in multiset(b);
      assert b[i] in a && b[j] in a;
    }
  }
}
