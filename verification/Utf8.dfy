/**
 * UTF-8 validation. A scalar value's encoding is the bit table of section 3 of RFC 3629; the
 * byte grammar of section 4 and the validator's own test are both proved to accept exactly that.
 */
module Utf8 {
  import opened Outcomes

  type Octet = bv8

  predicate IsScalar(c: bv32) {
    c <= 0x10FFFF && !(0xD800 <= c <= 0xDFFF)
  }

  type Scalar = c: bv32 | IsScalar(c)

  function LeadOf2(c: bv32): Octet { 0xC0 | ((c >> 6) & 0x1F) as Octet }
  function LeadOf3(c: bv32): Octet { 0xE0 | ((c >> 12) & 0x0F) as Octet }
  function LeadOf4(c: bv32): Octet { 0xF0 | ((c >> 18) & 0x07) as Octet }
  function Drop6(c: bv32): bv32 { c >> 6 }
  function Drop12(c: bv32): bv32 { c >> 12 }
  function Tail(c: bv32): Octet { 0x80 | (c & 0x3F) as Octet }
  function Ascii(c: bv32): Octet { (c & 0x7F) as Octet }

  /** Section 3: one to four octets, the bits of the scalar value filled in. */
  function Encode(c: Scalar): (s: seq<Octet>)
    ensures 1 <= |s| <= 4
  {
    if c < 0x80 then [Ascii(c)]
    else if c < 0x800 then [LeadOf2(c), Tail(c)]
    else if c < 0x10000 then [LeadOf3(c), Tail(Drop6(c)), Tail(c)]
    else [LeadOf4(c), Tail(Drop12(c)), Tail(Drop6(c)), Tail(c)]
  }

  function EncodeAll(cs: seq<Scalar>): seq<Octet>
    decreases |cs|
  {
    if |cs| == 0 then [] else Encode(cs[0]) + EncodeAll(cs[1..])
  }

  ghost predicate IsUtf8(text: seq<Octet>) {
    exists cs :: EncodeAll(cs) == text
  }

  // ---------- the validator's view of one sequence ----------

  predicate IsLead2(a: Octet) { a & 0xE0 == 0xC0 }
  predicate IsLead3(a: Octet) { a & 0xF0 == 0xE0 }
  predicate IsLead4(a: Octet) { a & 0xF8 == 0xF0 }
  function Low5(a: Octet): bv32 { (a & 0x1F) as bv32 }
  function Low4(a: Octet): bv32 { (a & 0x0F) as bv32 }
  function Low3(a: Octet): bv32 { (a & 0x07) as bv32 }

  /** Length of the sequence a lead octet introduces, or 0 if it cannot be one. */
  function SequenceLength(lead: Octet): (n: nat)
    ensures n <= 4
  {
    if lead < 0x80 then 1
    else if IsLead2(lead) then 2
    else if IsLead3(lead) then 3
    else if IsLead4(lead) then 4
    else 0
  }

  function LeadBits(lead: Octet, length: nat): bv32 {
    if length == 1 then lead as bv32
    else if length == 2 then Low5(lead)
    else if length == 3 then Low4(lead)
    else Low3(lead)
  }

  predicate IsContinuation(b: Octet) {
    b & 0xC0 == 0x80
  }

  function Shifted(point: bv32, continuation: Octet): bv32 {
    (point << 6) | (continuation & 0x3F) as bv32
  }

  function Minimum(length: nat): bv32 {
    if length <= 1 then 0 else if length == 2 then 0x80 else if length == 3 then 0x800 else 0x10000
  }

  /** Bits gathered from the lead octet and the continuations after it, in order. */
  function Gathered(s: seq<Octet>): bv32
    requires |s| > 0
    decreases |s|
  {
    if |s| == 1 then LeadBits(s[0], SequenceLength(s[0])) else Shifted(Gathered(s[..|s| - 1]), s[|s| - 1])
  }

  predicate AllContinue(s: seq<Octet>) {
    forall i :: 1 <= i < |s| ==> IsContinuation(s[i])
  }

  /** Neither overlong nor outside the scalar values. */
  predicate InRange(point: bv32, length: nat) {
    point >= Minimum(length) && IsScalar(point)
  }

  /** The validator's test of one whole sequence. */
  predicate Accepts(s: seq<Octet>) {
    && |s| > 0 && |s| == SequenceLength(s[0])
    && AllContinue(s)
    && InRange(Gathered(s), |s|)
  }

  lemma Gathered1(a: Octet)
    ensures Gathered([a]) == LeadBits(a, SequenceLength(a))
  {
  }

  lemma Gathered2(a: Octet, b: Octet)
    ensures Gathered([a, b]) == Shifted(LeadBits(a, SequenceLength(a)), b)
  {
    hide LeadBits, Shifted, SequenceLength;
    assert [a, b][..1] == [a];
    Gathered1(a);
  }

  lemma Gathered3(a: Octet, b: Octet, c: Octet)
    ensures Gathered([a, b, c]) == Shifted(Shifted(LeadBits(a, SequenceLength(a)), b), c)
  {
    hide LeadBits, Shifted, SequenceLength;
    assert [a, b, c][..2] == [a, b];
    Gathered2(a, b);
  }

  lemma Gathered4(a: Octet, b: Octet, c: Octet, d: Octet)
    ensures Gathered([a, b, c, d]) == Shifted(Shifted(Shifted(LeadBits(a, SequenceLength(a)), b), c), d)
  {
    hide LeadBits, Shifted, SequenceLength;
    assert [a, b, c, d][..3] == [a, b, c];
    Gathered3(a, b, c);
  }

  // ---------- one sequence: accepted exactly when it encodes its scalar value ----------

  lemma Decoded1(a: Octet)
    requires a < 0x80
    ensures (a as bv32) < 0x80 && Ascii(a as bv32) == a
  {
  }

  lemma Encoded1(c: bv32)
    requires c < 0x80
    ensures Ascii(c) < 0x80 && Ascii(c) as bv32 == c
  {
  }

  lemma Decoded2(a: Octet, b: Octet, c: bv32)
    requires IsLead2(a) && IsContinuation(b) && c == Shifted(Low5(a), b)
    ensures c < 0x800 && a == LeadOf2(c) && b == Tail(c)
  {
  }

  lemma Encoded2(a: Octet, b: Octet, c: bv32)
    requires c < 0x800 && a == LeadOf2(c) && b == Tail(c)
    ensures a >= 0x80 && IsLead2(a) && IsContinuation(b) && c == Shifted(Low5(a), b)
  {
  }

  lemma Decoded3(a: Octet, b0: Octet, b1: Octet, c: bv32)
    requires IsLead3(a) && IsContinuation(b0) && IsContinuation(b1)
    requires c == Shifted(Shifted(Low4(a), b0), b1)
    ensures c < 0x10000 && a == LeadOf3(c) && b0 == Tail(Drop6(c)) && b1 == Tail(c)
  {
  }

  lemma Encoded3(a: Octet, b0: Octet, b1: Octet, c: bv32)
    requires c < 0x10000 && a == LeadOf3(c) && b0 == Tail(Drop6(c)) && b1 == Tail(c)
    ensures a >= 0x80 && !IsLead2(a) && IsLead3(a) && IsContinuation(b0) && IsContinuation(b1)
    ensures c == Shifted(Shifted(Low4(a), b0), b1)
  {
  }

  lemma Decoded4Lead(a: Octet, b0: Octet, b1: Octet, b2: Octet, c: bv32)
    requires IsLead4(a) && IsContinuation(b0) && IsContinuation(b1) && IsContinuation(b2)
    requires c == Shifted(Shifted(Shifted(Low3(a), b0), b1), b2)
    ensures a == LeadOf4(c)
  {
  }

  lemma Decoded4Tails(a: Octet, b0: Octet, b1: Octet, b2: Octet, c: bv32)
    requires IsLead4(a) && IsContinuation(b0) && IsContinuation(b1) && IsContinuation(b2)
    requires c == Shifted(Shifted(Shifted(Low3(a), b0), b1), b2)
    ensures b0 == Tail(Drop12(c)) && b1 == Tail(Drop6(c)) && b2 == Tail(c)
  {
  }

  lemma Decoded4(a: Octet, b0: Octet, b1: Octet, b2: Octet, c: bv32)
    requires IsLead4(a) && IsContinuation(b0) && IsContinuation(b1) && IsContinuation(b2)
    requires c == Shifted(Shifted(Shifted(Low3(a), b0), b1), b2)
    ensures a == LeadOf4(c) && b0 == Tail(Drop12(c)) && b1 == Tail(Drop6(c)) && b2 == Tail(c)
  {
    Decoded4Lead(a, b0, b1, b2, c);
    Decoded4Tails(a, b0, b1, b2, c);
    hide *;
  }

  lemma Encoded4(a: Octet, b0: Octet, b1: Octet, b2: Octet, c: bv32)
    requires c <= 0x10FFFF && a == LeadOf4(c) && b0 == Tail(Drop12(c)) && b1 == Tail(Drop6(c)) && b2 == Tail(c)
    ensures a >= 0x80 && !IsLead2(a) && !IsLead3(a) && IsLead4(a)
    ensures IsContinuation(b0) && IsContinuation(b1) && IsContinuation(b2)
    ensures c == Shifted(Shifted(Shifted(Low3(a), b0), b1), b2)
  {
  }

  lemma AcceptedEncodes2(s: seq<Octet>)
    requires |s| == 2 && Accepts(s)
    ensures Encode(Gathered(s)) == s
  {
    hide LeadOf2, LeadOf3, LeadOf4, Tail, Ascii, IsContinuation, Shifted, Gathered, IsLead2, IsLead3, IsLead4, Low5,
      Low4, Low3, Drop6, Drop12;
    assert s == [s[0], s[1]];
    Gathered2(s[0], s[1]);
    Decoded2(s[0], s[1], Gathered(s));
  }

  lemma AcceptedEncodes3(s: seq<Octet>)
    requires |s| == 3 && Accepts(s)
    ensures Encode(Gathered(s)) == s
  {
    hide LeadOf2, LeadOf3, LeadOf4, Tail, Ascii, IsContinuation, Shifted, Gathered, IsLead2, IsLead3, IsLead4, Low5,
      Low4, Low3, Drop6, Drop12;
    assert s == [s[0], s[1], s[2]];
    Gathered3(s[0], s[1], s[2]);
    Decoded3(s[0], s[1], s[2], Gathered(s));
  }

  lemma AcceptedIsLarge(s: seq<Octet>)
    requires |s| == 4 && Accepts(s)
    ensures IsLead4(s[0]) && IsContinuation(s[1]) && IsContinuation(s[2]) && IsContinuation(s[3])
    ensures LeadBits(s[0], SequenceLength(s[0])) == Low3(s[0])
    ensures IsScalar(Gathered(s)) && Gathered(s) >= 0x10000
  {
    hide IsContinuation, Gathered, IsScalar, IsLead2, IsLead3, IsLead4, Low5, Low4, Low3;
  }

  lemma EncodeLarge(c: Scalar)
    requires c >= 0x10000
    ensures Encode(c) == [LeadOf4(c), Tail(Drop12(c)), Tail(Drop6(c)), Tail(c)]
  {
    hide LeadOf4, Tail, Drop6, Drop12;
  }

  lemma AcceptedFields4(s: seq<Octet>)
    requires |s| == 4 && Accepts(s)
    ensures var c := Gathered(s);
            s[0] == LeadOf4(c) && s[1] == Tail(Drop12(c)) && s[2] == Tail(Drop6(c)) && s[3] == Tail(c)
  {
    hide *;
    AcceptedIsLarge(s);
    Gathered4(s[0], s[1], s[2], s[3]);
    assert s == [s[0], s[1], s[2], s[3]];
    Decoded4(s[0], s[1], s[2], s[3], Gathered(s));
  }

  lemma AcceptedEncodes4(s: seq<Octet>)
    requires |s| == 4 && Accepts(s)
    ensures Encode(Gathered(s)) == s
  {
    hide *;
    AcceptedFields4(s);
    AcceptedIsLarge(s);
    EncodeLarge(Gathered(s));
  }

  /** What the validator accepts is the encoding of the scalar value it gathered. */
  lemma AcceptedEncodes(s: seq<Octet>)
    requires Accepts(s)
    ensures Encode(Gathered(s)) == s
  {
    if |s| == 1 {
      assert s == [s[0]];
      Gathered1(s[0]);
      Decoded1(s[0]);
    } else if |s| == 2 {
      AcceptedEncodes2(s);
    } else if |s| == 3 {
      AcceptedEncodes3(s);
    } else {
      AcceptedEncodes4(s);
    }
  }

  /** Every encoding is accepted, and its scalar value is what is gathered. */
  lemma EncodedAccepted(c: Scalar)
    ensures Accepts(Encode(c)) && Gathered(Encode(c)) == c
  {
    hide LeadOf2, LeadOf3, LeadOf4, Tail, Ascii, IsContinuation, Shifted, Gathered, IsLead2, IsLead3, IsLead4, Low5,
      Low4, Low3, Drop6, Drop12;
    var s := Encode(c);
    if c < 0x80 {
      Gathered1(s[0]);
      Encoded1(c);
    } else if c < 0x800 {
      Gathered2(s[0], s[1]);
      Encoded2(s[0], s[1], c);
    } else if c < 0x10000 {
      Gathered3(s[0], s[1], s[2]);
      Encoded3(s[0], s[1], s[2], c);
    } else {
      Gathered4(s[0], s[1], s[2], s[3]);
      assert IsScalar(c);
      Encoded4(s[0], s[1], s[2], s[3], c);
    }
  }

  // ---------- the byte grammar of section 4 ----------

  predicate IsTail(b: Octet) {
    0x80 <= b <= 0xBF
  }

  /** The first two octets of a three-octet character. */
  predicate Starts3(a: Octet, b: Octet) {
    || (a == 0xE0 && 0xA0 <= b <= 0xBF)
    || (0xE1 <= a <= 0xEC && IsTail(b))
    || (a == 0xED && 0x80 <= b <= 0x9F)
    || (0xEE <= a <= 0xEF && IsTail(b))
  }

  /** The first two octets of a four-octet character. */
  predicate Starts4(a: Octet, b: Octet) {
    || (a == 0xF0 && 0x90 <= b <= 0xBF)
    || (0xF1 <= a <= 0xF3 && IsTail(b))
    || (a == 0xF4 && 0x80 <= b <= 0x8F)
  }

  /** UTF8-char, alternative by alternative. */
  predicate IsCharacter(s: seq<Octet>) {
    || (|s| == 1 && s[0] <= 0x7F)
    || (|s| == 2 && 0xC2 <= s[0] <= 0xDF && IsTail(s[1]))
    || (|s| == 3 && Starts3(s[0], s[1]) && IsTail(s[2]))
    || (|s| == 4 && Starts4(s[0], s[1]) && IsTail(s[2]) && IsTail(s[3]))
  }

  lemma Grammar2(a: Octet, b: Octet)
    ensures (IsLead2(a) && IsContinuation(b) && Shifted(Low5(a), b) >= 0x80) <==> (0xC2 <= a <= 0xDF && IsTail(b))
    ensures IsLead2(a) && IsContinuation(b) ==> Shifted(Low5(a), b) <= 0x7FF
  {
  }

  lemma Grammar3(a: Octet, b: Octet, c: Octet)
    requires IsLead3(a) && IsContinuation(b)
    ensures var point := Shifted(Shifted(Low4(a), b), c);
            (point >= 0x800 && IsScalar(point)) <==> Starts3(a, b)
  {
  }

  lemma Grammar4(a: Octet, b: Octet, c: Octet, d: Octet)
    requires IsLead4(a) && IsContinuation(b)
    ensures var point := Shifted(Shifted(Shifted(Low3(a), b), c), d);
            (point >= 0x10000 && IsScalar(point)) <==> Starts4(a, b)
  {
  }

  lemma TailIsContinuation(b: Octet)
    ensures IsTail(b) <==> IsContinuation(b)
  {
  }

  lemma StartLeads(a: Octet, b: Octet)
    ensures 0xC2 <= a <= 0xDF ==> IsLead2(a) && a >= 0x80
    ensures Starts3(a, b) ==> IsLead3(a) && !IsLead2(a) && a >= 0x80 && IsTail(b)
    ensures Starts4(a, b) ==> IsLead4(a) && !IsLead3(a) && !IsLead2(a) && a >= 0x80 && IsTail(b)
  {
  }

  lemma GrammarAccepted2(s: seq<Octet>)
    requires |s| == 2
    ensures Accepts(s) <==> IsCharacter(s)
  {
    hide IsContinuation, IsTail, Shifted, Gathered, IsLead2, IsLead3, IsLead4, Low5, Low4, Low3, Starts3, Starts4;
    assert s == [s[0], s[1]];
    Gathered2(s[0], s[1]);
    Grammar2(s[0], s[1]);
    StartLeads(s[0], s[1]);
  }

  lemma GrammarAccepted3(s: seq<Octet>)
    requires |s| == 3
    ensures Accepts(s) <==> IsCharacter(s)
  {
    hide IsContinuation, IsTail, Shifted, Gathered, IsLead2, IsLead3, IsLead4, Low5, Low4, Low3, Starts3, Starts4,
      IsScalar;
    assert s == [s[0], s[1], s[2]];
    Gathered3(s[0], s[1], s[2]);
    StartLeads(s[0], s[1]);
    TailIsContinuation(s[1]);
    TailIsContinuation(s[2]);
    if IsLead3(s[0]) && IsContinuation(s[1]) {
      Grammar3(s[0], s[1], s[2]);
    }
  }

  lemma GrammarAccepted4(s: seq<Octet>)
    requires |s| == 4
    ensures Accepts(s) <==> IsCharacter(s)
  {
    hide IsContinuation, IsTail, Shifted, Gathered, IsLead2, IsLead3, IsLead4, Low5, Low4, Low3, Starts3, Starts4,
      IsScalar;
    assert s == [s[0], s[1], s[2], s[3]];
    Gathered4(s[0], s[1], s[2], s[3]);
    StartLeads(s[0], s[1]);
    TailIsContinuation(s[1]);
    TailIsContinuation(s[2]);
    TailIsContinuation(s[3]);
    if IsLead4(s[0]) && IsContinuation(s[1]) {
      Grammar4(s[0], s[1], s[2], s[3]);
    }
  }

  /** The byte grammar, the bit table and the validator's test describe the same sequences. */
  lemma GrammarIsTable(s: seq<Octet>)
    ensures Accepts(s) <==> IsCharacter(s)
    ensures IsCharacter(s) <==> exists c: Scalar :: Encode(c) == s
  {
    if |s| == 1 {
      assert s == [s[0]];
      Gathered1(s[0]);
      Single(s[0]);
    } else if |s| == 2 {
      GrammarAccepted2(s);
    } else if |s| == 3 {
      GrammarAccepted3(s);
    } else if |s| == 4 {
      GrammarAccepted4(s);
    }
    hide Accepts, IsCharacter, Encode, Gathered;
    if Accepts(s) {
      AcceptedIsScalar(s);
      AcceptedEncodes(s);
    }
    if c: Scalar :| Encode(c) == s {
      EncodedAccepted(c);
    }
  }

  lemma AcceptedIsScalar(s: seq<Octet>)
    requires Accepts(s)
    ensures IsScalar(Gathered(s))
  {
    hide Gathered, IsScalar;
  }

  lemma Single(a: Octet)
    ensures Accepts([a]) <==> a <= 0x7F
  {
  }

  // ---------- unique decoding ----------

  /** No encoding is a prefix of another. */
  lemma PrefixFree(a: Scalar, b: Scalar, x: seq<Octet>, y: seq<Octet>)
    requires Encode(a) + x == Encode(b) + y
    ensures a == b && x == y
  {
    EncodedAccepted(a);
    EncodedAccepted(b);
    hide Encode, Gathered, SequenceLength, AllContinue, InRange;
    var whole, n := Encode(a) + x, |Encode(a)|;
    assert Encode(a)[0] == whole[0] == Encode(b)[0];
    assert n == |Encode(b)|;
    assert Encode(a) == whole[..n] == Encode(b);
    assert x == whole[n..] == y;
  }

  /** A text that begins with some encodings decodes only by beginning with their scalar values. */
  lemma {:induction false} DecodesOn(cs: seq<Scalar>, done: seq<Scalar>, rest: seq<Octet>)
    requires EncodeAll(cs) == EncodeAll(done) + rest
    ensures done <= cs && EncodeAll(cs[|done|..]) == rest
    decreases |done|
  {
    hide Encode;
    if |done| > 0 {
      var x, y := EncodeAll(cs[1..]), EncodeAll(done[1..]) + rest;
      assert EncodeAll(done) + rest == Encode(done[0]) + y;
      PrefixFree(cs[0], done[0], x, y);
      DecodesOn(cs[1..], done[1..], rest);
      assert cs[1..][|done| - 1..] == cs[|done|..];
      assert cs == [cs[0]] + cs[1..] && done == [done[0]] + done[1..];
    }
  }

  lemma NothingEncodesToNothing(cs: seq<Scalar>)
    requires EncodeAll(cs) == []
    ensures cs == []
  {
    hide Encode;
  }

  /** A text has at most one sequence of scalar values. */
  lemma DecodingIsUnique(a: seq<Scalar>, b: seq<Scalar>)
    requires EncodeAll(a) == EncodeAll(b)
    ensures a == b
  {
    hide Encode;
    assert EncodeAll(b) == EncodeAll(b) + [];
    DecodesOn(a, b, []);
    NothingEncodesToNothing(a[|b|..]);
    assert a == b + a[|b|..];
  }

  lemma {:induction false} EncodeAllConcat(a: seq<Scalar>, b: seq<Scalar>)
    ensures EncodeAll(a + b) == EncodeAll(a) + EncodeAll(b)
    decreases |a|
  {
    hide Encode;
    if |a| == 0 {
      assert a + b == b;
    } else {
      EncodeAllConcat(a[1..], b);
      assert (a + b)[1..] == a[1..] + b;
    }
  }

  // ---------- the validator ----------

  /** The continuation octets are gathered one by one; the first that is not one ends the check. */
  method Gather(text: seq<Octet>, index: nat, length: nat) returns (point: Option<bv32>)
    requires 1 <= length && index + length <= |text| && length == SequenceLength(text[index])
    ensures point.None? <==> !AllContinue(text[index..index + length])
    ensures point.Some? ==> point.value == Gathered(text[index..index + length])
  {
    hide SequenceLength, LeadBits, IsContinuation, Shifted;
    var codePoint := LeadBits(text[index], length);
    assert text[index..index + 1] == [text[index]];
    for offset := 1 to length
      invariant AllContinue(text[index..index + offset])
      invariant codePoint == Gathered(text[index..index + offset])
    {
      var continuation := text[index + offset];
      if !IsContinuation(continuation) {
        assert text[index..index + length][offset] == continuation;
        return None;
      }
      var extended := text[index..index + offset + 1];
      assert extended[..|extended| - 1] == text[index..index + offset];
      codePoint := Shifted(codePoint, continuation);
    }
    point := Some(codePoint);
  }

  /** A text is refused at a position where no encoding fits. */
  lemma NoEncodingHere(text: seq<Octet>, done: seq<Scalar>, index: nat)
    requires index < |text| && EncodeAll(done) == text[..index]
    requires forall end :: index < end <= |text| ==> !Accepts(text[index..end])
    ensures !IsUtf8(text)
  {
    hide Encode, Accepts;
    if cs :| EncodeAll(cs) == text {
      assert text == text[..index] + text[index..];
      DecodesOn(cs, done, text[index..]);
      var next := cs[|done|..];
      assert |next| > 0;
      EncodedAccepted(next[0]);
      var n := |Encode(next[0])|;
      assert text[index..][..n] == Encode(next[0]);
      assert text[index..index + n] == text[index..][..n];
    }
  }

  /** The sequence at one position, if the octets there are one; no other length is possible there. */
  method NextSequence(text: seq<Octet>, index: nat) returns (length: Option<nat>)
    requires index < |text|
    ensures length.Some? ==> 0 < length.value <= |text| - index && Accepts(text[index..index + length.value])
    ensures length.None? ==> forall end :: index < end <= |text| ==> !Accepts(text[index..end])
  {
    hide Gathered, AllContinue, InRange, SequenceLength;
    var n := SequenceLength(text[index]);
    if n == 0 || index + n > |text| {
      OnlyThisLength(text, index, n);
      return None;
    }
    var point := Gather(text, index, n);
    if point.None? || !InRange(point.value, n) {
      OnlyThisLength(text, index, n);
      return None;
    }
    length := Some(n);
  }

  /** Valid exactly when the text is a sequence of encoded scalar values. */
  method IsValidUtf8(text: seq<Octet>) returns (valid: bool)
    ensures valid <==> IsUtf8(text)
  {
    hide Encode, Gathered, IsUtf8, EncodeAll, Accepts;
    var index := 0;
    ghost var done: seq<Scalar> := [];
    EncodesNothing();
    while index < |text|
      invariant index <= |text| && EncodeAll(done) == text[..index]
    {
      var length := NextSequence(text, index);
      if length.None? {
        NoEncodingHere(text, done, index);
        return false;
      }
      ghost var sequence := text[index..index + length.value];
      AcceptedIsScalar(sequence);
      AcceptedEncodes(sequence);
      EncodesOneMore(done, Gathered(sequence), sequence);
      assert text[..index] + sequence == text[..index + length.value];
      done, index := done + [Gathered(sequence)], index + length.value;
    }
    assert text[..index] == text;
    ItIsUtf8(text, done);
    valid := true;
  }

  lemma EncodesNothing()
    ensures EncodeAll([]) == []
  {
  }

  lemma EncodesOneMore(done: seq<Scalar>, c: Scalar, sequence: seq<Octet>)
    requires Encode(c) == sequence
    ensures EncodeAll(done + [c]) == EncodeAll(done) + sequence
  {
    hide Encode;
    EncodeAllConcat(done, [c]);
    assert EncodeAll([c]) == Encode(c) + EncodeAll([]);
  }

  lemma ItIsUtf8(text: seq<Octet>, cs: seq<Scalar>)
    requires EncodeAll(cs) == text
    ensures IsUtf8(text)
  {
  }

  /** A sequence is as long as its lead octet says, so there is only one candidate. */
  lemma OnlyThisLength(text: seq<Octet>, index: nat, length: nat)
    requires index < |text| && length == SequenceLength(text[index])
    requires length == 0 || index + length > |text| || !Accepts(text[index..index + length])
    ensures forall end :: index < end <= |text| ==> !Accepts(text[index..end])
  {
    hide SequenceLength, Gathered, AllContinue, InRange;
    forall end | index < end <= |text| ensures !Accepts(text[index..end]) {
      assert text[index..end][0] == text[index];
    }
  }
}
