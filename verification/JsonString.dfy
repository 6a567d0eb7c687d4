/**
 * JSON strings as the writer emits them, and an independent reader following section 7 of
 * RFC 8259: whatever is written is well formed and reads back as exactly the bytes given.
 */
module JsonString {
  import opened Outcomes
  import opened Utf8

  const QUOTE: Octet := 0x22
  const BACKSLASH: Octet := 0x5C

  datatype Error = NotUtf8

  // ---------- the writer ----------

  /** The letter of a two-character escape, if the octet has one. */
  function ShortEscape(b: Octet): Option<Octet> {
    if b == QUOTE then Some(QUOTE)
    else if b == BACKSLASH then Some(BACKSLASH)
    else if b == 0x0A then Some(0x6E)
    else if b == 0x0D then Some(0x72)
    else if b == 0x09 then Some(0x74)
    else if b == 0x08 then Some(0x62)
    else if b == 0x0C then Some(0x66)
    else None
  }

  function HexDigit(v: Octet): Octet {
    if v < 10 then 0x30 + v else 0x57 + v
  }

  /** One octet inside a string: a short escape, a four-digit escape for other controls, or itself. */
  function Escaped(b: Octet): seq<Octet> {
    if ShortEscape(b).Some? then [BACKSLASH, ShortEscape(b).value]
    else if b < 0x20 then [BACKSLASH, 0x75, 0x30, 0x30, HexDigit(b >> 4), HexDigit(b & 0x0F)]
    else [b]
  }

  function EscapeAll(value: seq<Octet>): seq<Octet>
    decreases |value|
  {
    if |value| == 0 then [] else Escaped(value[0]) + EscapeAll(value[1..])
  }

  function Quoted(value: seq<Octet>): seq<Octet> {
    [QUOTE] + EscapeAll(value) + [QUOTE]
  }

  lemma {:induction false} EscapeAllConcat(a: seq<Octet>, b: seq<Octet>)
    ensures EscapeAll(a + b) == EscapeAll(a) + EscapeAll(b)
    decreases |a|
  {
    hide Escaped;
    if |a| == 0 {
      assert a + b == b;
    } else {
      EscapeAllConcat(a[1..], b);
      assert (a + b)[1..] == a[1..] + b;
    }
  }

  lemma EscapeOneMore(done: seq<Octet>, b: Octet)
    ensures EscapeAll(done + [b]) == EscapeAll(done) + Escaped(b)
  {
    hide Escaped;
    EscapeAllConcat(done, [b]);
    assert EscapeAll([b]) == Escaped(b) + EscapeAll([]);
  }

  /** Refused exactly when it is not UTF-8; otherwise quoted, octet by octet. */
  method WriteString(value: seq<Octet>) returns (output: Result<seq<Octet>, Error>)
    ensures output.Err? <==> !IsUtf8(value)
    ensures output.Ok? ==> output.value == Quoted(value)
  {
    hide IsUtf8, EscapeAll;
    var valid := IsValidUtf8(value);
    if !valid {
      return Err(NotUtf8);
    }
    var written := [QUOTE];
    assert EscapeAll([]) == [] by {
      EscapesNothing();
    }
    for i := 0 to |value|
      invariant written == [QUOTE] + EscapeAll(value[..i])
    {
      var b := value[i];
      EscapeOneMore(value[..i], b);
      assert value[..i + 1] == value[..i] + [b];
      if b == QUOTE {
        written := written + [BACKSLASH, QUOTE];
      } else if b == BACKSLASH {
        written := written + [BACKSLASH, BACKSLASH];
      } else if b == 0x0A {
        written := written + [BACKSLASH, 0x6E];
      } else if b == 0x0D {
        written := written + [BACKSLASH, 0x72];
      } else if b == 0x09 {
        written := written + [BACKSLASH, 0x74];
      } else if b == 0x08 {
        written := written + [BACKSLASH, 0x62];
      } else if b == 0x0C {
        written := written + [BACKSLASH, 0x66];
      } else if b < 0x20 {
        written := written + [BACKSLASH, 0x75, 0x30, 0x30, HexDigit(b >> 4), HexDigit(b & 0x0F)];
      } else {
        written := written + [b];
      }
    }
    assert value[..|value|] == value;
    output := Ok(written + [QUOTE]);
  }

  lemma EscapesNothing()
    ensures EscapeAll([]) == []
  {
  }

  // ---------- the reader ----------

  /** The character after a backslash, for the escapes of one letter. */
  function ShortMeaning(letter: Octet): Option<Octet> {
    if letter == QUOTE || letter == BACKSLASH || letter == 0x2F then Some(letter)
    else if letter == 0x62 then Some(0x08)
    else if letter == 0x66 then Some(0x0C)
    else if letter == 0x6E then Some(0x0A)
    else if letter == 0x72 then Some(0x0D)
    else if letter == 0x74 then Some(0x09)
    else None
  }

  function HexValue(digit: Octet): Option<bv32> {
    if 0x30 <= digit <= 0x39 then Some((digit - 0x30) as bv32)
    else if 0x41 <= digit <= 0x46 then Some((digit - 0x37) as bv32)
    else if 0x61 <= digit <= 0x66 then Some((digit - 0x57) as bv32)
    else None
  }

  /** Four hexadecimal digits. */
  function CodeUnit(s: seq<Octet>): Option<bv32> {
    if |s| < 4 then None
    else
      match (HexValue(s[0]), HexValue(s[1]), HexValue(s[2]), HexValue(s[3]))
      case (Some(a), Some(b), Some(c), Some(d)) => Some((a << 12) | (b << 8) | (c << 4) | d)
      case _ => None
  }

  /** The scalar value an escape denotes, a surrogate pair counting as one, and how much it takes up. */
  function UnicodeEscape(s: seq<Octet>): (r: Option<(bv32, nat)>)
    ensures r.Some? ==> IsScalar(r.value.0) && 0 < r.value.1 <= |s|
  {
    match CodeUnit(s)
    case None => None
    case Some(unit) =>
      if IsScalar(unit) then Some((unit, 4))
      else if unit <= 0xDBFF && |s| >= 10 && s[4] == BACKSLASH && s[5] == 0x75 && CodeUnit(s[6..]).Some?
              && 0xDC00 <= CodeUnit(s[6..]).value <= 0xDFFF then
        Some((0x10000 + (((unit & 0x3FF) << 10) | (CodeUnit(s[6..]).value & 0x3FF)), 10))
      else None
  }

  function Before(first: seq<Octet>, rest: Option<seq<Octet>>): Option<seq<Octet>> {
    if rest.None? then None else Some(first + rest.value)
  }

  /** The rest of a string up to its closing quote, which must be the last octet. */
  function Unescape(s: seq<Octet>): Option<seq<Octet>>
    decreases |s|
  {
    if |s| == 0 then None
    else if s[0] == QUOTE then (if |s| == 1 then Some([]) else None)
    else if s[0] < 0x20 then None
    else if s[0] != BACKSLASH then Before([s[0]], Unescape(s[1..]))
    else if |s| == 1 then None
    else if s[1] == 0x75 then
      (match UnicodeEscape(s[2..])
       case None => None
       case Some((point, size)) => Before(Encode(point), Unescape(s[2 + size..])))
    else
      match ShortMeaning(s[1])
      case None => None
      case Some(b) => Before([b], Unescape(s[2..]))
  }

  function Unquote(s: seq<Octet>): Option<seq<Octet>> {
    if |s| == 0 || s[0] != QUOTE then None else Unescape(s[1..])
  }

  lemma ShortEscapesMean(b: Octet)
    requires ShortEscape(b).Some?
    ensures ShortMeaning(ShortEscape(b).value) == Some(b) && ShortEscape(b).value != 0x75
  {
  }

  lemma HexDigitReads(v: Octet)
    requires v < 16
    ensures HexValue(HexDigit(v)) == Some(v as bv32)
  {
  }

  lemma Halves(b: Octet)
    requires b < 0x20
    ensures b >> 4 < 16 && b & 0x0F < 16
    ensures ((0 as bv32) << 12) | ((0 as bv32) << 8) | (((b >> 4) as bv32) << 4) | (b & 0x0F) as bv32 == b as bv32
  {
  }

  lemma ControlReads(b: Octet, rest: seq<Octet>)
    requires b < 0x20
    ensures CodeUnit([0x30, 0x30, HexDigit(b >> 4), HexDigit(b & 0x0F)] + rest) == Some(b as bv32)
  {
    Halves(b);
    HexDigitReads(b >> 4);
    HexDigitReads(b & 0x0F);
    assert HexValue(0x30) == Some(0);
  }

  lemma ControlIsItself(b: Octet)
    requires b < 0x20
    ensures IsScalar(b as bv32) && Encode(b as bv32) == [b]
  {
  }

  lemma ControlUnescapes(b: Octet, rest: seq<Octet>)
    requires b < 0x20
    ensures UnicodeEscape([0x30, 0x30, HexDigit(b >> 4), HexDigit(b & 0x0F)] + rest) == Some((b as bv32, 4))
  {
    hide CodeUnit, HexDigit;
    ControlReads(b, rest);
    ControlIsItself(b);
  }

  /** One octet's escape reads back as the octet. */
  lemma UnescapesFirst(b: Octet, rest: seq<Octet>)
    ensures Unescape(Escaped(b) + rest) == Before([b], Unescape(rest))
  {
    hide CodeUnit, HexDigit, Encode, UnicodeEscape, ShortMeaning, HexValue;
    var s := Escaped(b) + rest;
    if ShortEscape(b).Some? {
      ShortEscapesMean(b);
      assert s[2..] == rest;
    } else if b < 0x20 {
      ControlUnescapes(b, rest);
      ControlIsItself(b);
      assert s[2..] == [0x30, 0x30, HexDigit(b >> 4), HexDigit(b & 0x0F)] + rest;
      assert s[6..] == rest;
    } else {
      assert s[1..] == rest;
    }
  }

  lemma {:induction false} UnescapesAll(value: seq<Octet>)
    ensures Unescape(EscapeAll(value) + [QUOTE]) == Some(value)
    decreases |value|
  {
    hide Escaped;
    if |value| == 0 {
      assert EscapeAll(value) + [QUOTE] == [QUOTE];
    } else {
      var rest := EscapeAll(value[1..]) + [QUOTE];
      UnescapesAll(value[1..]);
      assert EscapeAll(value) + [QUOTE] == Escaped(value[0]) + rest;
      UnescapesFirst(value[0], rest);
      assert [value[0]] + value[1..] == value;
    }
  }

  /** Reading back what was written gives exactly the bytes given. */
  lemma RoundTrip(value: seq<Octet>)
    ensures Unquote(Quoted(value)) == Some(value)
  {
    UnescapesAll(value);
    assert Quoted(value)[1..] == EscapeAll(value) + [QUOTE];
  }

  // ---------- what is written is itself UTF-8 ----------

  lemma Utf8Concat(a: seq<Octet>, b: seq<Octet>)
    requires IsUtf8(a) && IsUtf8(b)
    ensures IsUtf8(a + b)
  {
    hide EncodeAll;
    var x :| EncodeAll(x) == a;
    var y :| EncodeAll(y) == b;
    EncodeAllConcat(x, y);
    assert EncodeAll(x + y) == a + b;
  }

  lemma OneIsUtf8(c: Scalar)
    ensures IsUtf8(Encode(c))
  {
    hide Encode;
    assert EncodeAll([c]) == Encode(c) + EncodeAll([]);
    assert EncodeAll([c]) == Encode(c);
  }

  lemma AsciiIsItself(b: Octet)
    requires b < 0x80
    ensures IsScalar(b as bv32) && Encode(b as bv32) == [b]
  {
  }

  lemma {:induction false} AsciiIsUtf8(s: seq<Octet>)
    requires forall i :: 0 <= i < |s| ==> s[i] < 0x80
    ensures IsUtf8(s)
    decreases |s|
  {
    hide IsUtf8, EncodeAll, Encode;
    if |s| == 0 {
      EncodesNothing();
      ItIsUtf8(s, []);
    } else {
      AsciiIsUtf8(s[1..]);
      AsciiIsItself(s[0]);
      OneIsUtf8(s[0] as bv32);
      Utf8Concat([s[0]], s[1..]);
      assert s == [s[0]] + s[1..];
    }
  }

  lemma EscapedIsAscii(b: Octet)
    requires b < 0x80
    ensures forall i :: 0 <= i < |Escaped(b)| ==> 0x20 <= Escaped(b)[i] < 0x80
  {
    if b < 0x20 {
      Halves(b);
    }
  }

  lemma HighOctets(c: Scalar)
    requires c >= 0x80
    ensures forall i :: 0 <= i < |Encode(c)| ==> Encode(c)[i] >= 0x80
  {
  }

  lemma {:induction false} HighUnchanged(s: seq<Octet>)
    requires forall i :: 0 <= i < |s| ==> s[i] >= 0x80
    ensures EscapeAll(s) == s
    decreases |s|
  {
    if |s| > 0 {
      HighUnchanged(s[1..]);
      assert Escaped(s[0]) == [s[0]];
      assert s == [s[0]] + s[1..];
    }
  }

  lemma OneEscapedIsUtf8(c: Scalar)
    ensures IsUtf8(EscapeAll(Encode(c)))
  {
    hide IsUtf8, Escaped, Encode;
    if c < 0x80 {
      SmallIsAscii(c);
      EscapeOneMore([], Encode(c)[0]);
      EscapesNothing();
      assert [] + [Encode(c)[0]] == Encode(c);
      assert EscapeAll(Encode(c)) == Escaped(Encode(c)[0]);
      EscapedIsAscii(Encode(c)[0]);
      AsciiIsUtf8(Escaped(Encode(c)[0]));
    } else {
      HighOctets(c);
      HighUnchanged(Encode(c));
      OneIsUtf8(c);
    }
  }

  lemma SmallIsAscii(c: Scalar)
    requires c < 0x80
    ensures |Encode(c)| == 1 && Encode(c)[0] < 0x80
  {
  }

  lemma {:induction false} EscapedScalarsAreUtf8(cs: seq<Scalar>)
    ensures IsUtf8(EscapeAll(EncodeAll(cs)))
    decreases |cs|
  {
    hide IsUtf8, Encode, EscapeAll;
    if |cs| == 0 {
      EscapesNothing();
      EncodesNothing();
      ItIsUtf8([], []);
    } else {
      EscapedScalarsAreUtf8(cs[1..]);
      OneEscapedIsUtf8(cs[0]);
      EscapeAllConcat(Encode(cs[0]), EncodeAll(cs[1..]));
      Utf8Concat(EscapeAll(Encode(cs[0])), EscapeAll(EncodeAll(cs[1..])));
    }
  }

  /** A written string is itself UTF-8. */
  lemma WrittenIsUtf8(value: seq<Octet>)
    requires IsUtf8(value)
    ensures IsUtf8(Quoted(value))
  {
    var cs :| EncodeAll(cs) == value;
    hide IsUtf8, EscapeAll, EncodeAll;
    EscapedScalarsAreUtf8(cs);
    AsciiIsUtf8([QUOTE]);
    Utf8Concat([QUOTE], EscapeAll(value));
    Utf8Concat([QUOTE] + EscapeAll(value), [QUOTE]);
  }
}
