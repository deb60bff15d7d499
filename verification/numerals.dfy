/** Integer numerals as the JavaScript runtime writes and reads them:
    decimal rendering of a number (`${n}`), the string grammar of `BigInt(s)`,
    and the `<digits>u64` literals passed to the ledger. */
module Numerals {
  import opened Wrappers
  import opened Text

  predicate IsDigit(c: char) {
    '0' <= c <= '9'
  }

  predicate AllDigits(s: string) {
    forall i :: 0 <= i < |s| ==> IsDigit(s[i])
  }

  /** The value of `c` as a digit of radix up to 36; 36 when it is no digit. */
  function DigitValue(c: char): (d: nat)
    ensures d <= 36
    ensures IsDigit(c) <==> d < 10
  {
    if '0' <= c <= '9' then c as int - '0' as int
    else if 'a' <= c <= 'z' then c as int - 'a' as int + 10
    else if 'A' <= c <= 'Z' then c as int - 'A' as int + 10
    else 36
  }

  predicate AllRadixDigits(s: string, radix: nat) {
    forall i :: 0 <= i < |s| ==> DigitValue(s[i]) < radix
  }

  /** Positional value of `s`, most significant digit first. */
  function RadixValue(s: string, radix: nat): nat
    decreases |s|
  {
    if s == [] then 0 else RadixValue(s[..|s| - 1], radix) * radix + DigitValue(s[|s| - 1])
  }

  function Pow(b: nat, e: nat): (r: nat)
    ensures b > 0 ==> r > 0
  {
    if e == 0 then 1 else b * Pow(b, e - 1)
  }

  lemma MulMonotone(x: nat, y: nat, z: nat)
    requires x <= y
    ensures x * z <= y * z
  {
  }

  lemma {:induction false} PowMonotoneBase(a: nat, b: nat, e: nat)
    requires a <= b
    ensures Pow(a, e) <= Pow(b, e)
  {
    if e > 0 {
      PowMonotoneBase(a, b, e - 1);
      MulMonotone(a, b, Pow(a, e - 1));
      MulMonotone(Pow(a, e - 1), Pow(b, e - 1), b);
    }
  }

  lemma {:induction false} PowMonotoneExponent(b: nat, d: nat, e: nat)
    requires b >= 1 && d <= e
    ensures Pow(b, d) <= Pow(b, e)
  {
    if d < e {
      PowMonotoneExponent(b, d, e - 1);
      assert Pow(b, e) == b * Pow(b, e - 1) >= Pow(b, e - 1);
    }
  }

  /** Appending a digit below `radix` to a value below `q` stays below
      `q * radix`. */
  lemma DigitStepBound(v: nat, q: nat, radix: nat, d: nat)
    requires v < q && d < radix
    ensures v * radix + d < q * radix
  {
    MulMonotone(v + 1, q, radix);
    assert (v + 1) * radix == v * radix + radix;
  }

  /** A numeral of `n` digits in `radix` stays below `radix^n`. */
  lemma {:induction false} RadixValueBound(s: string, radix: nat)
    requires radix >= 1 && AllRadixDigits(s, radix)
    ensures RadixValue(s, radix) < Pow(radix, |s|)
  {
    if s != [] {
      var p := s[..|s| - 1];
      assert AllRadixDigits(p, radix) by {
        forall i | 0 <= i < |p| ensures DigitValue(p[i]) < radix { assert p[i] == s[i]; }
      }
      RadixValueBound(p, radix);
      var d := DigitValue(s[|s| - 1]);
      var v := RadixValue(p, radix);
      var q := Pow(radix, |p|);
      assert RadixValue(s, radix) == v * radix + d;
      DigitStepBound(v, q, radix, d);
      assert Pow(radix, |s|) == radix * q;
    }
  }

  function DigitChar(d: nat): (c: char)
    requires d < 10
    ensures IsDigit(c) && DigitValue(c) == d
  {
    ('0' as int + d) as char
  }

  /** `${n}` for a non-negative integer: its shortest decimal numeral. */
  function NatToDecimal(n: nat): (r: string)
    ensures 1 <= |r| && AllDigits(r)
    ensures RadixValue(r, 10) == n
  {
    if n < 10 then [DigitChar(n)]
    else
      var p := NatToDecimal(n / 10);
      var r := p + [DigitChar(n % 10)];
      assert r[..|r| - 1] == p;
      r
  }

  /** Two numbers with the same decimal numeral are equal. */
  lemma NatToDecimalInjective(a: nat, b: nat)
    requires NatToDecimal(a) == NatToDecimal(b)
    ensures a == b
  {
    assert a == RadixValue(NatToDecimal(a), 10);
  }

  /** `${i}` for any integer: a minus sign in front of negative numbers. */
  function IntToDecimal(i: int): (r: string)
    ensures r != []
  {
    if i < 0 then "-" + NatToDecimal(-i) else NatToDecimal(i)
  }

  /** A non-empty run of digits of `radix`, read as a number. */
  function ParseRadix(s: string, radix: nat): (r: Option<nat>)
    ensures r.Some? <==> s != [] && AllRadixDigits(s, radix)
    ensures r.Some? && radix >= 1 ==> r.value < Pow(radix, |s|)
  {
    if s != [] && AllRadixDigits(s, radix) then
      if radix >= 1 then RadixValueBound(s, radix); Some(RadixValue(s, radix))
      else Some(RadixValue(s, radix))
    else None
  }

  /** The second character of a `0x`, `0o` or `0b` prefix, either case. */
  predicate IsRadixMark(c: char) {
    c == 'x' || c == 'X' || c == 'o' || c == 'O' || c == 'b' || c == 'B'
  }

  function MarkRadix(c: char): nat {
    if c == 'x' || c == 'X' then 16 else if c == 'o' || c == 'O' then 8 else 2
  }

  /** `BigInt(s)` for a string: surrounding white space is ignored, an empty
      (or all-blank) string is zero, a decimal numeral may carry a sign, and
      `0x`, `0o`, `0b` numerals (either case) carry none.  `None` stands for
      the SyntaxError thrown on anything else. */
  function ParseBigInt(s: string): (r: Option<int>)
    ensures Trim(s) == [] ==> r == Some(0)
  {
    ParseTrimmed(Trim(s))
  }

  /** `BigInt` on a string without surrounding white space. */
  function ParseTrimmed(t: string): (r: Option<int>)
    ensures t == [] ==> r == Some(0)
  {
    if t == [] then Some(0)
    else if |t| >= 2 && t[0] == '0' && IsRadixMark(t[1]) then ToInt(ParseRadix(t[2..], MarkRadix(t[1])))
    else if t[0] == '-' then
      match ParseRadix(t[1..], 10)
      case Some(n) => Some(0 - n)
      case None => None
    else if t[0] == '+' then ToInt(ParseRadix(t[1..], 10))
    else ToInt(ParseRadix(t, 10))
  }

  /** No digit of radix 16 or less at the end: `BigInt` throws, whatever
      comes before. */
  lemma ParseTrimmedRejectsEnd(t: string)
    requires t != [] && DigitValue(t[|t| - 1]) >= 16
    ensures ParseTrimmed(t) == None
  {
    var c := t[|t| - 1];
    if |t| >= 2 && t[0] == '0' && IsRadixMark(t[1]) {
      var u := t[2..];
      if u != [] {
        assert u[|u| - 1] == c;
        assert !AllRadixDigits(u, MarkRadix(t[1]));
      }
    } else if t[0] == '-' || t[0] == '+' {
      var u := t[1..];
      if u != [] {
        assert u[|u| - 1] == c;
        assert !AllRadixDigits(u, 10);
      }
    } else {
      assert !AllRadixDigits(t, 10);
    }
  }

  function ToInt(o: Option<nat>): Option<int> {
    match o
    case Some(n) => Some(n)
    case None => None
  }

  lemma DecimalDigitsAreRadix10(s: string)
    requires AllDigits(s)
    ensures AllRadixDigits(s, 10)
  {
    forall i | 0 <= i < |s| ensures DigitValue(s[i]) < 10 { assert IsDigit(s[i]); }
  }

  /** A numeral that starts and ends with a digit is its own trimmed form. */
  lemma TrimKeepsNumeral(t: string)
    requires t != [] && IsDigit(t[|t| - 1]) && (IsDigit(t[0]) || t[0] == '-')
    ensures Trim(t) == t
  {
    assert !IsJsSpace(t[0]);
    assert !IsJsSpace(t[|t| - 1]);
  }

  /** `BigInt` reads a run of decimal digits as its value. */
  lemma ParseBigIntOfDigits(d: string)
    requires d != [] && AllDigits(d)
    ensures ParseBigInt(d) == Some(RadixValue(d, 10))
  {
    assert IsDigit(d[0]) && IsDigit(d[|d| - 1]);
    TrimKeepsNumeral(d);
    ParseTrimmedOfDigits(d);
  }

  lemma ParseTrimmedOfDigits(d: string)
    requires d != [] && AllDigits(d)
    ensures ParseTrimmed(d) == Some(RadixValue(d, 10))
  {
    assert IsDigit(d[0]);
    if |d| >= 2 {
      assert IsDigit(d[1]);
    }
    DecimalDigitsAreRadix10(d);
  }

  /** `BigInt` reads a minus sign and a run of decimal digits as the
      negated value. */
  lemma ParseBigIntOfNegative(d: string)
    requires d != [] && AllDigits(d)
    ensures ParseBigInt("-" + d) == Some(0 - RadixValue(d, 10))
  {
    NegativeIsTrimmed(d);
    ParseTrimmedOfNegative(d);
  }

  lemma NegativeIsTrimmed(d: string)
    requires d != [] && IsDigit(d[|d| - 1])
    ensures Trim("-" + d) == "-" + d
  {
    var t := "-" + d;
    assert t[0] == '-' && t[|t| - 1] == d[|d| - 1];
    TrimKeepsNumeral(t);
  }

  lemma ParseTrimmedOfNegative(d: string)
    requires d != [] && AllDigits(d)
    ensures ParseTrimmed("-" + d) == Some(0 - RadixValue(d, 10))
  {
    var t := "-" + d;
    assert t[1..] == d && t[0] == '-';
    DecimalDigitsAreRadix10(d);
  }

  /** `BigInt` reads back every decimal numeral the runtime writes. */
  lemma ParseBigIntOfDecimal(i: int)
    ensures ParseBigInt(IntToDecimal(i)) == Some(i)
  {
    if i < 0 {
      ParseBigIntOfNegative(NatToDecimal(-i));
    } else {
      ParseBigIntOfDigits(NatToDecimal(i));
    }
  }

  /** The ledger literal `${i}u64`. */
  function U64Literal(i: int): (r: string)
    ensures EndsWith(r, "u64")
  {
    IntToDecimal(i) + "u64"
  }

  /** Reads a ledger `u64` literal: decimal digits followed by `u64`. */
  function ParseU64Literal(s: string): Option<nat> {
    if EndsWith(s, "u64") then ParseRadix(s[..|s| - 3], 10) else None
  }

  /** Every non-negative `${i}u64` reads back as `i`; a negative one is no
      `u64` literal at all. */
  lemma U64LiteralRoundTrip(i: int)
    ensures i >= 0 ==> ParseU64Literal(U64Literal(i)) == Some(i)
    ensures i < 0 ==> ParseU64Literal(U64Literal(i)) == None
  {
    var s := U64Literal(i);
    assert s[..|s| - 3] == IntToDecimal(i);
    if i >= 0 {
      DecimalDigitsAreRadix10(NatToDecimal(i));
    } else {
      assert DigitValue(s[0]) == 36;
    }
  }
}
