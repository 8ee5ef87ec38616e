/**
 * Values and string operations shared by every part of the model:
 * a nullable wrapper, the parts of .NET's string API the core relies on
 * (white-space tests, invariant lower-casing, trimming, joining) and
 * decimal formatting and parsing of integers.
 */
module Common {

  /** A possibly-null reference or a `Nullable<T>` value: `None` is `null`. */
  datatype Option<+T> = None | Some(value: T)

  // ---------------------------------------------------------------------
  // Characters and strings
  // ---------------------------------------------------------------------

  /** The characters for which .NET's `char.IsWhiteSpace` holds. */
  predicate IsWhiteSpace(c: char)
  {
    c == ' ' || ('\t' <= c <= '\r') || c == '\U{0085}' || c == '\U{00A0}' || c == '\U{1680}'
    || ('\U{2000}' <= c <= '\U{200A}') || c == '\U{2028}' || c == '\U{2029}'
    || c == '\U{202F}' || c == '\U{205F}' || c == '\U{3000}'
  }

  /** Every character of `s` is white space (so the empty string is blank). */
  predicate IsBlank(s: string)
  {
    forall i :: 0 <= i < |s| ==> IsWhiteSpace(s[i])
  }

  /** `string.IsNullOrWhiteSpace`. */
  predicate IsNullOrWhiteSpace(s: Option<string>)
  {
    s.None? || IsBlank(s.value)
  }

  /** Invariant lower-casing of one character, on the ASCII range. */
  function LowerChar(c: char): char
  {
    if 'A' <= c <= 'Z' then (c as int + 32) as char else c
  }

  /** `string.ToLowerInvariant`, on the ASCII range. */
  function ToLowerInvariant(s: string): (r: string)
    ensures |r| == |s|
    ensures forall i :: 0 <= i < |s| ==> r[i] == LowerChar(s[i])
  {
    seq(|s|, i requires 0 <= i < |s| => LowerChar(s[i]))
  }

  /** `string.Equals(a, b, StringComparison.OrdinalIgnoreCase)`, on the ASCII range. */
  predicate EqualsIgnoreCase(a: string, b: string)
  {
    ToLowerInvariant(a) == ToLowerInvariant(b)
  }

  /** Lower-casing twice is lower-casing once. */
  lemma ToLowerInvariantIdempotent(s: string)
    ensures ToLowerInvariant(ToLowerInvariant(s)) == ToLowerInvariant(s)
  {
  }

  /** Comparing ignoring case does not change when either side is lower-cased first. */
  lemma EqualsIgnoreCaseOfLower(a: string, b: string)
    ensures EqualsIgnoreCase(a, ToLowerInvariant(b)) == EqualsIgnoreCase(a, b)
  {
    ToLowerInvariantIdempotent(b);
  }

  predicate StartsWith(s: string, prefix: string)
  {
    |prefix| <= |s| && s[..|prefix|] == prefix
  }

  /** `s.TrimStart(c)`: drops every leading occurrence of `c`. */
  function TrimStartChar(s: string, c: char): (r: string)
    ensures |r| <= |s| && r == s[|s| - |r|..]
    ensures r == [] || r[0] != c
    ensures forall i :: 0 <= i < |s| - |r| ==> s[i] == c
  {
    if s != [] && s[0] == c then TrimStartChar(s[1..], c) else s
  }

  /** `s.Trim()`: drops leading and trailing white space. */
  function Trim(s: string): (r: string)
    ensures r == [] || (!IsWhiteSpace(r[0]) && !IsWhiteSpace(r[|r| - 1]))
  {
    TrimEnd(TrimStart(s))
  }

  function TrimStart(s: string): (r: string)
    ensures |r| <= |s| && r == s[|s| - |r|..]
    ensures r == [] || !IsWhiteSpace(r[0])
  {
    if s != [] && IsWhiteSpace(s[0]) then TrimStart(s[1..]) else s
  }

  function TrimEnd(s: string): (r: string)
    ensures |r| <= |s| && r == s[..|r|]
    ensures r == [] || !IsWhiteSpace(r[|r| - 1])
  {
    if s != [] && IsWhiteSpace(s[|s| - 1]) then TrimEnd(s[..|s| - 1]) else s
  }

  /** `string.Join(sep, xs)`. */
  function Join(sep: string, xs: seq<string>): string
  {
    if |xs| == 0 then ""
    else if |xs| == 1 then xs[0]
    else xs[0] + sep + Join(sep, xs[1..])
  }

  /** `s` contains `sub` as a contiguous piece. */
  predicate Contains(s: string, sub: string)
  {
    exists i :: 0 <= i <= |s| - |sub| && OccursAt(s, sub, i)
  }

  predicate OccursAt(s: string, sub: string, i: int)
    requires 0 <= i <= |s| - |sub|
  {
    s[i..i + |sub|] == sub
  }

  /** A string contains each piece it is built from. */
  lemma ContainsMiddle(a: string, sub: string, b: string)
    ensures Contains(a + sub + b, sub)
  {
    var s := a + sub + b;
    assert s[|a|..|a| + |sub|] == sub;
    assert OccursAt(s, sub, |a|);
  }

  // ---------------------------------------------------------------------
  // Integers as decimal text
  // ---------------------------------------------------------------------

  const Int32Min: int := -0x8000_0000
  const Int32Max: int := 0x7FFF_FFFF

  predicate IsDigit(c: char) { '0' <= c <= '9' }

  function DigitValue(c: char): nat
    requires IsDigit(c)
  {
    c as int - '0' as int
  }

  function DigitChar(d: nat): char
    requires d < 10
  {
    ('0' as int + d) as char
  }

  /** The decimal digits of `n`, most significant first, without leading zeros. */
  function NatToString(n: nat): (r: string)
    ensures |r| >= 1
    ensures forall i :: 0 <= i < |r| ==> IsDigit(r[i])
    decreases n
  {
    if n < 10 then [DigitChar(n)] else NatToString(n / 10) + [DigitChar(n % 10)]
  }

  /** How an `int` is written by string interpolation (invariant culture). */
  function IntToString(i: int): string
  {
    if i < 0 then "-" + NatToString(-i) else NatToString(i)
  }

  /** The value of a non-empty run of decimal digits. */
  function DigitsValue(s: string): nat
    requires forall i :: 0 <= i < |s| ==> IsDigit(s[i])
    decreases |s|
  {
    if s == [] then 0
    else DigitsValue(s[..|s| - 1]) * 10 + DigitValue(s[|s| - 1])
  }

  /** `s` without its trailing NUL characters. */
  function TrimTrailingNul(s: string): (r: string)
    ensures |r| <= |s| && r == s[..|r|]
    ensures forall i :: |r| <= i < |s| ==> s[i] == '\0'
    ensures r == [] || r[|r| - 1] != '\0'
    decreases |s|
  {
    if s != [] && s[|s| - 1] == '\0' then TrimTrailingNul(s[..|s| - 1]) else s
  }

  /** The white space the number parser skips: tab to carriage return, and space. */
  predicate IsParseWhite(c: char)
  {
    c == ' ' || '\t' <= c <= '\r'
  }

  /** `s` without the trailing white space the number parser skips. */
  function TrimTrailingParseWhite(s: string): (r: string)
    ensures |r| <= |s| && r == s[..|r|]
    ensures forall i :: |r| <= i < |s| ==> IsParseWhite(s[i])
    ensures r == [] || !IsParseWhite(r[|r| - 1])
    decreases |s|
  {
    if s != [] && IsParseWhite(s[|s| - 1]) then TrimTrailingParseWhite(s[..|s| - 1]) else s
  }

  /**
   * `int.TryParse` (`NumberStyles.Integer`, invariant signs) applied to a
   * string that has already been trimmed: an optional sign, at least one
   * decimal digit, then optional white space and trailing NUL characters,
   * and a value that fits in 32 bits. Anything else does not parse.
   */
  function TryParseInt32(s: string): (r: Option<int>)
    ensures r.Some? ==> Int32Min <= r.value <= Int32Max
  {
    ParseSignedDigits(TrimTrailingParseWhite(TrimTrailingNul(s)))
  }

  /** An optional sign, then only decimal digits, at least one, with a value that fits in 32 bits. */
  function ParseSignedDigits(t: string): (r: Option<int>)
    ensures r.Some? ==> Int32Min <= r.value <= Int32Max
  {
    var negative := |t| > 0 && t[0] == '-';
    var digits := if |t| > 0 && (t[0] == '-' || t[0] == '+') then t[1..] else t;
    if |digits| == 0 || !(forall i :: 0 <= i < |digits| ==> IsDigit(digits[i])) then None
    else
      var magnitude: int := DigitsValue(digits);
      var v := if negative then -magnitude else magnitude;
      if Int32Min <= v <= Int32Max then Some(v) else None
  }

  /** A string ending in a digit has nothing for the trailing trims to remove. */
  lemma ParseEndingInDigit(s: string)
    requires s != [] && IsDigit(s[|s| - 1])
    ensures TryParseInt32(s) == ParseSignedDigits(s)
  {
  }

  /** Appending NUL characters to a string that does not end in one is undone by `TrimTrailingNul`. */
  lemma {:induction false} TrimNulsOff(d: string, k: nat)
    requires d == [] || d[|d| - 1] != '\0'
    ensures TrimTrailingNul(d + seq(k, _ => '\0')) == d
    decreases k
  {
    var z := seq(k, _ => '\0');
    if k == 0 {
      assert d + z == d;
    } else {
      assert (d + z)[|d + z| - 1] == '\0';
      assert (d + z)[..|d + z| - 1] == d + seq(k - 1, _ => '\0');
      TrimNulsOff(d, k - 1);
    }
  }

  lemma {:induction false} DigitsValueOfNatToString(n: nat)
    ensures DigitsValue(NatToString(n)) == n
    decreases n
  {
    var r := NatToString(n);
    if n >= 10 {
      var p := NatToString(n / 10);
      assert r == p + [DigitChar(n % 10)];
      assert r[..|r| - 1] == p;
      DigitsValueOfNatToString(n / 10);
    }
  }

  /** Formatting a count and parsing it back gives the count again. */
  lemma NatToStringParses(n: nat)
    requires n <= Int32Max
    ensures TryParseInt32(NatToString(n)) == Some(n)
  {
    DigitsValueOfNatToString(n);
    ParseEndingInDigit(NatToString(n));
  }

  /** Trailing NUL characters do not stop a count from parsing. */
  lemma TrailingNulsParse(n: nat, nuls: nat)
    requires n <= Int32Max
    ensures TryParseInt32(NatToString(n) + seq(nuls, _ => '\0')) == Some(n)
  {
    var d := NatToString(n);
    assert IsDigit(d[|d| - 1]);
    TrimNulsOff(d, nuls);
    NatToStringParses(n);
  }
}
