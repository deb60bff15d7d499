/** The worker's field encoding of text, worker.ts `stringToField` and
    `fieldToString`, at the byte level: the UTF-8 bytes of a string, cut to
    their first 31, are read as one big-endian natural and written as the
    ledger literal `<decimal>field`; decoding reads the literal back with
    `BigInt` and turns the number into bytes again. */
module FieldCodec {
  import opened Wrappers
  import opened Text
  import opened Numerals

  /** Only this many leading bytes of the text take part in the encoding. */
  const MaxFieldBytes: nat := 31

  /** Big-endian value of a byte string (`BigInt("0x" + hex)`). */
  function FromBytesBE(b: seq<byte>): nat
    decreases |b|
  {
    if b == [] then 0 else FromBytesBE(b[..|b| - 1]) * 256 + b[|b| - 1]
  }

  /** The shortest big-endian byte string of `n` (no leading zero byte). */
  function ToBytesBE(n: nat): (r: seq<byte>)
    ensures r == [] <==> n == 0
    ensures r != [] ==> r[0] != 0
    ensures FromBytesBE(r) == n
  {
    if n == 0 then []
    else
      var p := ToBytesBE(n / 256);
      var r := p + [n % 256];
      assert r[..|r| - 1] == p;
      r
  }

  lemma {:induction false} FromBytesBound(b: seq<byte>)
    ensures FromBytesBE(b) < Pow(256, |b|)
  {
    if b != [] {
      var p := b[..|b| - 1];
      FromBytesBound(p);
      var v := FromBytesBE(p);
      MulMonotone(v + 1, Pow(256, |p|), 256);
      assert (v + 1) * 256 == v * 256 + 256;
    }
  }

  /** A byte string whose first byte is non-zero is worth at least
      `256^(length - 1)`. */
  lemma {:induction false} FromBytesLowerBound(b: seq<byte>)
    requires b != [] && b[0] != 0
    ensures FromBytesBE(b) >= Pow(256, |b| - 1)
  {
    var p := b[..|b| - 1];
    if p != [] {
      assert p[0] == b[0];
      FromBytesLowerBound(p);
      MulMonotone(Pow(256, |p| - 1), FromBytesBE(p), 256);
    }
  }

  /** Reading a byte string without a leading zero byte as a number and
      writing the number back gives the same bytes. */
  lemma {:induction false} BytesRoundTrip(b: seq<byte>)
    requires b == [] || b[0] != 0
    ensures ToBytesBE(FromBytesBE(b)) == b
  {
    if b != [] {
      var p := b[..|b| - 1];
      var x := b[|b| - 1];
      var n := FromBytesBE(b);
      assert n == FromBytesBE(p) * 256 + x;
      if p == [] {
        assert b == [x] && x != 0;
        assert ToBytesBE(n) == ToBytesBE(0) + [x];
      } else {
        assert p[0] == b[0];
        BytesRoundTrip(p);
        FromBytesLowerBound(p);
        assert n / 256 == FromBytesBE(p) && n % 256 == x;
        assert ToBytesBE(n) == p + [x] == b;
      }
    }
  }

  /** `buffer.subarray(0, 31)` when the buffer is longer than 31 bytes. */
  function Truncate(b: seq<byte>): (r: seq<byte>)
    ensures |r| <= MaxFieldBytes && |r| <= |b| && r == b[..|r|]
    ensures |b| <= MaxFieldBytes ==> r == b
    ensures |b| > MaxFieldBytes ==> r == b[..MaxFieldBytes]
  {
    if |b| > MaxFieldBytes then b[..MaxFieldBytes] else b
  }

  /** The number a byte string encodes to: always below 2^248 = 256^31. */
  function FieldValue(bytes: seq<byte>): (v: nat)
    ensures v < Pow(256, MaxFieldBytes)
  {
    var t := Truncate(bytes);
    FromBytesBound(t);
    PowMonotoneExponent(256, |t|, MaxFieldBytes);
    FromBytesBE(t)
  }

  /** The ledger literal of a field element. */
  function FieldLiteral(n: nat): (r: string)
    ensures EndsWith(r, "field")
  {
    var d := NatToDecimal(n);
    assert (d + "field")[|d|..] == "field";
    d + "field"
  }

  /** worker.ts `stringToField` applied to the UTF-8 bytes of a string.
      `None` is the SyntaxError of `BigInt("0x")` on an empty string. */
  function StringToField(bytes: seq<byte>): (r: Option<string>)
    ensures r.None? <==> bytes == []
    ensures r.Some? ==> EndsWith(r.value, "field")
  {
    if bytes == [] then None else Some(FieldLiteral(FieldValue(bytes)))
  }

  /** What worker.ts `fieldToString` returns when decoding throws. */
  const UnknownBytes: seq<byte> := Utf8("Unknown")

  /** worker.ts `fieldToString`, up to the final UTF-8 decoding of the bytes:
      the first `field` is removed, the rest goes through `BigInt`, and the
      number's hexadecimal digits (padded to even length) become bytes.
      Zero gives the single byte 0x00; a negative number's hex starts with a
      minus sign, which Node's hex decoder stops at, giving no bytes. */
  function FieldToBytes(field: string): seq<byte> {
    match ParseBigInt(RemoveFirst(field, "field"))
    case None => UnknownBytes
    case Some(n) =>
      if n < 0 then []
      else if n == 0 then [0]
      else ToBytesBE(n)
  }

  lemma DecimalLiteralBody(n: nat)
    ensures RemoveFirst(FieldLiteral(n), "field") == NatToDecimal(n)
    ensures ParseBigInt(NatToDecimal(n)) == Some(n)
  {
    var d := NatToDecimal(n);
    forall i | 0 <= i < |d| ensures d[i] != "field"[0] { assert IsDigit(d[i]); }
    RemoveFirstOfSuffix(d, "field");
    ParseBigIntOfDecimal(n);
  }

  /** The numeral in front of "field" in a literal reads back as the number. */
  lemma LiteralReadsBack(n: nat)
    ensures ParseBigInt(RemoveFirst(FieldLiteral(n), "field")) == Some(n)
  {
    DecimalLiteralBody(n);
  }

  /** Decoding undoes encoding on every text of at least one byte whose
      first byte is not 0x00, up to the 31-byte cut. */
  lemma FieldRoundTrip(bytes: seq<byte>)
    requires bytes != [] && bytes[0] != 0
    ensures FieldToBytes(StringToField(bytes).value) == Truncate(bytes)
  {
    var t := Truncate(bytes);
    var v := FieldValue(bytes);
    DecimalLiteralBody(v);
    assert t[0] == bytes[0];
    FromBytesLowerBound(t);
    BytesRoundTrip(t);
  }

  /** A text of two or more bytes that starts with 0x00 does not come back
      as its first 31 bytes: the decoded number has no leading zero byte. */
  lemma LeadingZeroLost(bytes: seq<byte>)
    requires 2 <= |bytes| && bytes[0] == 0
    ensures FieldToBytes(StringToField(bytes).value) != Truncate(bytes)
  {
    var t := Truncate(bytes);
    assert 2 <= |t| && t[0] == 0;
    var v := FieldValue(bytes);
    LiteralReadsBack(v);
    var r := FieldToBytes(StringToField(bytes).value);
    assert r == if v == 0 then [0] else ToBytesBE(v);
    assert |r| != |t| || r[0] != t[0];
  }

  /** The one-byte text 0x00 does come back: zero decodes as that byte. */
  lemma SingleZeroSurvives()
    ensures FieldToBytes(StringToField([0]).value) == [0]
  {
    assert FieldValue([0]) == 0 by { assert FromBytesBE([0]) == FromBytesBE([]) * 256 + 0; }
    LiteralReadsBack(0);
  }

  /** `fieldToString("field")`: the empty numeral is zero, the byte 0x00. */
  lemma EmptyNumeralIsZero()
    ensures FieldToBytes("field") == [0]
  {
    RemoveFirstOfSuffix([], "field");
    assert [] + "field" == "field";
  }

  /** A text in front of `field` that, once trimmed, ends in a character
      that is no digit of radix 16 or less is no numeral, and the decoder
      falls back to "Unknown". */
  lemma NonNumeralIsUnknown(p: string)
    requires p != [] && !IsJsSpace(p[|p| - 1]) && DigitValue(p[|p| - 1]) >= 16
    requires forall i :: 0 <= i < |p| ==> p[i] != 'f'
    ensures FieldToBytes(p + "field") == UnknownBytes
  {
    RemoveFirstOfSuffix(p, "field");
    TrimKeepsLast(p);
    ParseTrimmedRejectsEnd(Trim(p));
  }

  /** `fieldToString("0xfield")`, and the same for `0o`, `0b` and their
      capitals: a radix prefix without digits is no numeral. */
  lemma BarePrefixIsUnknown(mark: char)
    requires IsRadixMark(mark)
    ensures FieldToBytes(['0', mark] + "field") == UnknownBytes
  {
    var p := ['0', mark];
    RemoveFirstOfSuffix(p, "field");
    assert !IsJsSpace(p[0]) && !IsJsSpace(p[1]);
    assert Trim(p) == p;
    assert p[2..] == [];
  }
}
