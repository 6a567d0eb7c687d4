/**
 * The identity both artifacts of a pair carry: SHA-256 of a framing of the
 * ordered documents that no two corpora share.
 */
module PairIdentity {
  import opened Bytes
  import opened Words
  import opened Outcomes
  import opened Sha256
  import opened DocumentStore
  import opened Sequences

  const DOMAIN := "leann.cpp corpus identity v1"

  function Framed(documents: seq<Bytes>): Bytes
    decreases |documents|
  {
    if |documents| == 0 then []
    else LittleEndian(|documents[0]|, 8) + documents[0] + Framed(documents[1..])
  }

  function CorpusMessage(documents: seq<Bytes>): Bytes {
    Ascii(DOMAIN) + LittleEndian(|documents|, 8) + Framed(documents)
  }

  /** Every length fits the 8 bytes it is framed with. */
  predicate LengthsFit(documents: seq<Bytes>) {
    |documents| < U64 && forall i :: 0 <= i < |documents| ==> |documents[i]| < U64
  }

  lemma {:induction false} FramedInjective(a: seq<Bytes>, b: seq<Bytes>)
    requires LengthsFit(a) && LengthsFit(b) && |a| == |b|
    requires Framed(a) == Framed(b)
    ensures a == b
    decreases |a|
  {
    hide LittleEndian, FromLittleEndian;
    if |a| > 0 {
      FrameParts(a);
      FrameParts(b);
      CountDecodes(|a[0]|);
      CountDecodes(|b[0]|);
      FramedInjective(a[1..], b[1..]);
      assert a == [a[0]] + a[1..] && b == [b[0]] + b[1..];
    }
  }

  lemma FrameParts(a: seq<Bytes>)
    requires |a| > 0
    ensures var m, n := Framed(a), |a[0]|;
            && |m| >= 8 + n
            && m[..8] == LittleEndian(n, 8) && m[8..8 + n] == a[0] && m[8 + n..] == Framed(a[1..])
  {
    hide LittleEndian;
  }

  /** Different ordered corpora hash different messages. */
  lemma CorpusMessageInjective(a: seq<Bytes>, b: seq<Bytes>)
    requires LengthsFit(a) && LengthsFit(b)
    ensures CorpusMessage(a) == CorpusMessage(b) <==> a == b
  {
    hide LittleEndian, FromLittleEndian, Framed, Ascii;
    if CorpusMessage(a) == CorpusMessage(b) {
      MessageParts(a);
      MessageParts(b);
      CountDecodes(|a|);
      CountDecodes(|b|);
      FramedInjective(a, b);
    }
  }

  lemma MessageParts(a: seq<Bytes>)
    ensures var m, d := CorpusMessage(a), |DOMAIN|;
            |m| >= d + 8 && m[d..d + 8] == LittleEndian(|a|, 8) && m[d + 8..] == Framed(a)
  {
    hide LittleEndian, Framed;
  }

  // ---------- the message byte by byte ----------

  /** From this place on each document: its length in eight bytes, lowest first, then its bytes, up to the end. */
  predicate FramesAt(message: Bytes, at: nat, documents: seq<Bytes>)
    decreases |documents|
  {
    if |documents| == 0 then at == |message|
    else
      var n := |documents[0]|;
      && at + 8 + n <= |message|
      && FromLittleEndian(message[at..at + 8]) == n && message[at + 8..at + 8 + n] == documents[0]
      && FramesAt(message, at + 8 + n, documents[1..])
  }

  /** "leann.cpp corpus identity v1", the number of documents, and the documents. */
  predicate IsMessage(message: Bytes, documents: seq<Bytes>) {
    && |message| >= 36
    && message[..28] == [
         108, 101, 97, 110, 110, 46, 99, 112, 112, 32, 99, 111, 114, 112,
         117, 115, 32, 105, 100, 101, 110, 116, 105, 116, 121, 32, 118, 49]
    && FromLittleEndian(message[28..36]) == |documents|
    && FramesAt(message, 36, documents)
  }

  lemma {:induction false} FramedByPlace(message: Bytes, at: nat, documents: seq<Bytes>)
    requires LengthsFit(documents) && at <= |message| && message[at..] == Framed(documents)
    ensures FramesAt(message, at, documents)
    decreases |documents|
  {
    hide LittleEndian, FromLittleEndian, Framed;
    if |documents| == 0 {
      FramedNothing(documents);
    } else {
      var n := |documents[0]|;
      FrameParts(documents);
      CountDecodes(n);
      var rest := message[at..];
      assert rest[..8] == message[at..at + 8] && rest[8..8 + n] == message[at + 8..at + 8 + n];
      assert rest[8 + n..] == message[at + 8 + n..];
      FramedByPlace(message, at + 8 + n, documents[1..]);
    }
  }

  lemma MessageByPlace(documents: seq<Bytes>)
    requires LengthsFit(documents)
    ensures IsMessage(CorpusMessage(documents), documents)
  {
    hide LittleEndian, FromLittleEndian, Framed, FramesAt;
    DomainBytes();
    MessageParts(documents);
    CountDecodes(|documents|);
    FramedByPlace(CorpusMessage(documents), 36, documents);
  }

  lemma DomainBytes()
    ensures Ascii(DOMAIN) == [
              108, 101, 97, 110, 110, 46, 99, 112, 112, 32, 99, 111, 114, 112,
              117, 115, 32, 105, 100, 101, 110, 116, 105, 116, 121, 32, 118, 49]
  {
  }

  /** What fits the digest fits its length fields. */
  lemma {:induction false} FramedLengths(documents: seq<Bytes>)
    ensures |Framed(documents)| >= 8 * |documents|
    ensures forall i :: 0 <= i < |documents| ==> |documents[i]| <= |Framed(documents)|
    decreases |documents|
  {
    hide LittleEndian;
    if |documents| > 0 {
      FramedLengths(documents[1..]);
    }
  }

  method HashLength(hasher: Hasher, value: nat) returns (r: Result<(), HashError>)
    requires hasher.Valid() && !hasher.finished
    modifies hasher, hasher.buffer
    ensures hasher.Valid() && !hasher.finished
    ensures r.Ok? ==> hasher.message == old(hasher.message) + LittleEndian(value, 8)
    ensures r.Err? ==> r.error == InputTooLarge && |old(hasher.message)| + 8 > MAX_U64
  {
    hide Hasher.Absorbed, Fold, LittleEndian;
    var bytes := WriteLe(value, 8);
    r := hasher.Update(bytes);
  }

  method HashDocument(hasher: Hasher, document: Bytes) returns (r: Result<(), HashError>)
    requires hasher.Valid() && !hasher.finished
    modifies hasher, hasher.buffer
    ensures hasher.Valid() && !hasher.finished
    ensures r.Ok? ==> hasher.message == old(hasher.message) + (LittleEndian(|document|, 8) + document)
    ensures r.Err? ==> r.error == InputTooLarge && |old(hasher.message)| + 8 + |document| > MAX_U64
  {
    hide Hasher.Absorbed, Fold, LittleEndian;
    ghost var before := hasher.message;
    r := HashLength(hasher, |document|);
    if r.Err? {
      return;
    }
    r := hasher.Update(document);
    assert before + LittleEndian(|document|, 8) + document == before + (LittleEndian(|document|, 8) + document);
  }

  lemma NextFrame(documents: seq<Bytes>, i: nat)
    requires i < |documents|
    ensures Framed(documents[i..]) == LittleEndian(|documents[i]|, 8) + documents[i] + Framed(documents[i + 1..])
  {
    hide LittleEndian;
    assert documents[i..][0] == documents[i] && documents[i..][1..] == documents[i + 1..];
  }

  method MakePairIdentity(documents: seq<Bytes>) returns (r: Result<Bytes, HashError>)
    ensures r == if |CorpusMessage(documents)| > MAX_U64 / 8 then Err(InputTooLarge)
                 else Ok(Hash(CorpusMessage(documents)))
    ensures r.Ok? ==> exists message :: IsMessage(message, documents) && r.value == Hash(message)
  {
    hide IsMessage, Hasher.Absorbed, Fold, LittleEndian, Hash, Ascii, Framed;
    if |CorpusMessage(documents)| <= MAX_U64 / 8 {
      FramedLengths(documents);
      MessageByPlace(documents);
    }
    var hasher := new Hasher();
    var started := hasher.Update(Ascii(DOMAIN));
    assert hasher.message == Ascii(DOMAIN);
    var counted := HashLength(hasher, |documents|);
    assert documents[0..] == documents;
    for i := 0 to |documents|
      invariant hasher.Valid() && !hasher.finished && fresh(hasher) && fresh(hasher.buffer)
      invariant CorpusMessage(documents) == hasher.message + Framed(documents[i..])
    {
      NextFrame(documents, i);
      Associative(hasher.message, LittleEndian(|documents[i]|, 8) + documents[i], Framed(documents[i + 1..]));
      var added := HashDocument(hasher, documents[i]);
      if added.Err? {
        return Err(InputTooLarge);
      }
    }
    FramedNothing(documents[|documents|..]);
    assert hasher.message + [] == hasher.message;
    r := hasher.Finish();
  }

  lemma FramedNothing(documents: seq<Bytes>)
    requires |documents| == 0
    ensures Framed(documents) == []
  {
  }
}
