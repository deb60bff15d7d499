/** Strings and bytes as the JavaScript runtime sees them: suffix tests,
    first-occurrence replacement (`String.prototype.replace` with a string
    pattern), the whitespace class shared by `\s` and `BigInt(string)`,
    trimming, and the UTF-8 and UTF-16 encodings of a string.

    A Dafny `char` is a Unicode scalar value, so a string here never holds a
    lone surrogate. */
module Text {
  import opened Wrappers

  type byte = b: int | 0 <= b < 256

  predicate EndsWith(s: string, suffix: string) {
    |suffix| <= |s| && s[|s| - |suffix|..] == suffix
  }

  /** `pat` occurs in `s` starting at index `i`. */
  predicate OccursAt(s: string, pat: string, i: int) {
    0 <= i && i + |pat| <= |s| && s[i..i + |pat|] == pat
  }

  /** The first index at or after `from` where `pat` occurs, as
      `String.prototype.indexOf(pat, from)` finds it. */
  function IndexFrom(s: string, pat: string, from: nat): (r: Option<nat>)
    decreases |s| - from
    ensures r.Some? ==> from <= r.value && OccursAt(s, pat, r.value)
    ensures r.Some? ==> forall j :: from <= j < r.value ==> !OccursAt(s, pat, j)
    ensures r.None? ==> forall j :: from <= j ==> !OccursAt(s, pat, j)
  {
    if from + |pat| > |s| then None
    else if OccursAt(s, pat, from) then Some(from)
    else IndexFrom(s, pat, from + 1)
  }

  /** `s.replace(pat, "")`: a string pattern removes only its first occurrence. */
  function RemoveFirst(s: string, pat: string): (r: string)
    ensures (forall j :: !OccursAt(s, pat, j)) ==> r == s
    ensures |r| == |s| || |r| + |pat| == |s|
  {
    match IndexFrom(s, pat, 0)
    case None => s
    case Some(i) => s[..i] + s[i + |pat|..]
  }

  /** `replace` cuts out the leftmost occurrence of the pattern, if any. */
  lemma RemoveFirstCutsLeftmost(s: string, pat: string)
    ensures (exists j :: OccursAt(s, pat, j)) ==>
              exists i :: && OccursAt(s, pat, i) && (forall j :: 0 <= j < i ==> !OccursAt(s, pat, j))
                          && RemoveFirst(s, pat) == s[..i] + s[i + |pat|..]
  {
    var r := IndexFrom(s, pat, 0);
    if r.Some? {
      var i := r.value;
      assert OccursAt(s, pat, i) && forall j :: 0 <= j < i ==> !OccursAt(s, pat, j);
    }
  }

  /** Removing a suffix pattern whose first character never occurs before it
      gives back exactly the text in front of it. */
  lemma RemoveFirstOfSuffix(d: string, pat: string)
    requires pat != []
    requires forall i :: 0 <= i < |d| ==> d[i] != pat[0]
    ensures RemoveFirst(d + pat, pat) == d
  {
    var s := d + pat;
    assert OccursAt(s, pat, |d|) by { assert s[|d|..|d| + |pat|] == pat; }
    var r := IndexFrom(s, pat, 0);
    forall j | 0 <= j < |d| ensures !OccursAt(s, pat, j) {
      assert s[j..j + |pat|][0] == s[j] == d[j] != pat[0];
    }
    assert r.Some? && r.value == |d|;
    assert s[..|d|] == d;
    assert s[|d| + |pat|..] == [];
  }

  /** The characters JavaScript treats as white space: the WhiteSpace and
      LineTerminator productions of ECMAScript, which is also the set the
      regular-expression class `\s` matches. */
  predicate IsJsSpace(c: char) {
    || c == '\t' || c == '\n' || c == '\U{000B}' || c == '\U{000C}' || c == '\r'
    || c == ' ' || c == '\U{00A0}' || c == '\U{1680}'
    || ('\U{2000}' <= c <= '\U{200A}')
    || c == '\U{2028}' || c == '\U{2029}' || c == '\U{202F}' || c == '\U{205F}'
    || c == '\U{3000}' || c == '\U{FEFF}'
  }

  function TrimStart(s: string): (r: string)
    ensures |r| <= |s| && r == s[|s| - |r|..]
    ensures r == [] || !IsJsSpace(r[0])
    ensures s == [] || !IsJsSpace(s[0]) ==> r == s
  {
    if s != [] && IsJsSpace(s[0]) then TrimStart(s[1..]) else s
  }

  function TrimEnd(s: string): (r: string)
    ensures |r| <= |s| && r == s[..|r|]
    ensures r == [] || !IsJsSpace(r[|r| - 1])
    ensures s == [] || !IsJsSpace(s[|s| - 1]) ==> r == s
  {
    if s != [] && IsJsSpace(s[|s| - 1]) then TrimEnd(s[..|s| - 1]) else s
  }

  /** Trimming the front of a text that ends in a non-blank character
      keeps that last character. */
  lemma {:induction false} TrimStartKeepsLast(s: string)
    requires s != [] && !IsJsSpace(s[|s| - 1])
    ensures TrimStart(s) != [] && TrimStart(s)[|TrimStart(s)| - 1] == s[|s| - 1]
  {
    if IsJsSpace(s[0]) {
      var t := s[1..];
      assert t != [] && t[|t| - 1] == s[|s| - 1];
      TrimStartKeepsLast(t);
    }
  }

  /** `String.prototype.trim`. */
  function Trim(s: string): (r: string)
    ensures r == [] || (!IsJsSpace(r[0]) && !IsJsSpace(r[|r| - 1]))
    ensures s == [] || (!IsJsSpace(s[0]) && !IsJsSpace(s[|s| - 1])) ==> r == s
  {
    var t := TrimStart(s);
    assert t != [] ==> t[|t| - 1] == s[|s| - 1];
    TrimEnd(t)
  }

  /** Trimming a text that ends in a non-blank character keeps that last
      character at the end. */
  lemma {:induction false} TrimKeepsLast(s: string)
    requires s != [] && !IsJsSpace(s[|s| - 1])
    ensures Trim(s) != [] && Trim(s)[|Trim(s)| - 1] == s[|s| - 1]
  {
    var t := TrimStart(s);
    TrimStartKeepsLast(s);
    assert TrimEnd(t) == t;
    assert Trim(s) == t;
  }

  predicate IsAscii(s: string) {
    forall i :: 0 <= i < |s| ==> s[i] as int < 0x80
  }

  /** The UTF-8 encoding (RFC 3629) of one Unicode scalar value. */
  function Utf8Char(c: char): (r: seq<byte>)
    ensures 1 <= |r| <= 4
    ensures |r| == 1 <==> c as int < 0x80
    ensures |r| == 1 ==> r[0] == c as int
    ensures r[0] != 0 || c == '\0'
  {
    var n := c as int;
    if n < 0x80 then [n]
    else if n < 0x800 then [0xC0 + n / 0x40, 0x80 + n % 0x40]
    else if n < 0x10000 then [0xE0 + n / 0x1000, 0x80 + (n / 0x40) % 0x40, 0x80 + n % 0x40]
    else [0xF0 + n / 0x40000, 0x80 + (n / 0x1000) % 0x40, 0x80 + (n / 0x40) % 0x40, 0x80 + n % 0x40]
  }

  /** `Buffer.from(s, "utf8")`. */
  function Utf8(s: string): (r: seq<byte>)
    ensures |s| <= |r| <= 4 * |s|
    ensures s != [] && s[0] != '\0' ==> r[0] != 0
  {
    if s == [] then [] else Utf8Char(s[0]) + Utf8(s[1..])
  }

  /** On ASCII text UTF-8 is the identity on code points. */
  lemma {:induction false} Utf8OfAscii(s: string)
    requires IsAscii(s)
    ensures |Utf8(s)| == |s|
    ensures forall i :: 0 <= i < |s| ==> Utf8(s)[i] == s[i] as int
  {
    if s != [] {
      assert IsAscii(s[1..]) by {
        forall i | 0 <= i < |s[1..]| ensures s[1..][i] as int < 0x80 {
          assert s[1..][i] == s[i + 1];
        }
      }
      Utf8OfAscii(s[1..]);
      forall i | 0 <= i < |s| ensures Utf8(s)[i] == s[i] as int {
        if i > 0 {
          assert Utf8(s)[i] == Utf8(s[1..])[i - 1];
          assert s[1..][i - 1] == s[i];
        }
      }
    }
  }

  /** The UTF-16 code units of one Unicode scalar value, as `charCodeAt`
      reports them: one unit in the basic plane, a surrogate pair above it. */
  function Utf16Char(c: char): (r: seq<nat>)
    ensures 1 <= |r| <= 2
    ensures forall i :: 0 <= i < |r| ==> r[i] < 0x10000
    ensures |r| == 1 <==> c as int < 0x10000
  {
    var n := c as int;
    if n < 0x10000 then [n]
    else [0xD800 + (n - 0x10000) / 0x400, 0xDC00 + (n - 0x10000) % 0x400]
  }

  /** The sequence `s.charCodeAt(0), …, s.charCodeAt(s.length - 1)`. */
  function Utf16Units(s: string): (r: seq<nat>)
    ensures |s| <= |r| <= 2 * |s|
    ensures forall i :: 0 <= i < |r| ==> r[i] < 0x10000
  {
    if s == [] then [] else Utf16Char(s[0]) + Utf16Units(s[1..])
  }
}
