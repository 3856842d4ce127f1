/** Shared vocabulary: optional values and results, the fixed integer widths of
    the program, whitespace trimming, Rust's integer parsing and decimal
    printing of naturals. */
module Common {

  datatype Option<T> = None | Some(value: T) {
    function GetOr(default: T): T {
      match this
      case Some(v) => v
      case None => default
    }
  }

  datatype Result<T, E> = Ok(value: T) | Err(error: E)

  /** `iter().position(p)`: the first index whose element satisfies `p`. */
  function FirstIndex<T>(xs: seq<T>, p: T -> bool): (r: Option<nat>)
    ensures r.Some? ==> r.value < |xs| && p(xs[r.value])
    ensures r.Some? ==> forall k :: 0 <= k < r.value ==> !p(xs[k])
    ensures r.None? <==> forall k :: 0 <= k < |xs| ==> !p(xs[k])
  {
    if xs == [] then None
    else if p(xs[0]) then Some(0)
    else
      match FirstIndex(xs[1..], p)
      case None =>
        assert forall k :: 1 <= k < |xs| ==> xs[k] == xs[1..][k - 1];
        None
      case Some(i) => Some(i + 1)
  }

  const U32_MAX: int := 0xFFFF_FFFF
  const I64_MAX: int := 0x7FFF_FFFF_FFFF_FFFF

  /** Values of Rust's `u32`. */
  type U32 = n: int | 0 <= n <= U32_MAX

  /** `a.saturating_add(b)` on `u32`. */
  function SaturatingAddU32(a: U32, b: U32): (r: U32)
    ensures a + b <= U32_MAX ==> r == a + b
    ensures a + b > U32_MAX ==> r == U32_MAX
    ensures a <= r
  {
    if a + b <= U32_MAX then a + b else U32_MAX
  }

  // ---------------------------------------------------------------------------
  // Characters and trimming
  // ---------------------------------------------------------------------------

  /** `char::is_ascii_digit`. */
  predicate IsAsciiDigit(c: char) {
    '0' <= c <= '9'
  }

  predicate AllDigits(s: string) {
    forall i :: 0 <= i < |s| ==> IsAsciiDigit(s[i])
  }

  /** `char::is_whitespace`: the characters with the Unicode White_Space property. */
  predicate IsWhitespace(c: char) {
    c == ' ' || ('\t' <= c <= '\r') || c == '\U{85}' || c == '\U{A0}' || c == '\U{1680}'
    || ('\U{2000}' <= c <= '\U{200A}') || c == '\U{2028}' || c == '\U{2029}'
    || c == '\U{202F}' || c == '\U{205F}' || c == '\U{3000}'
  }

  /** True when every character is whitespace (so `s.trim().is_empty()`). */
  predicate IsBlank(s: string) {
    forall i :: 0 <= i < |s| ==> IsWhitespace(s[i])
  }

  /** `str::trim_start`: drops the leading whitespace. */
  function TrimStart(s: string): (r: string)
    ensures |r| <= |s| && r == s[|s| - |r|..]
  {
    if |s| > 0 && IsWhitespace(s[0]) then TrimStart(s[1..]) else s
  }

  /** What `trim_start` drops is whitespace, and what it keeps does not start
      with whitespace. */
  lemma {:induction false} TrimStartStrips(s: string)
    ensures forall i :: 0 <= i < |s| - |TrimStart(s)| ==> IsWhitespace(s[i])
    ensures TrimStart(s) == [] || !IsWhitespace(TrimStart(s)[0])
  {
    if |s| > 0 && IsWhitespace(s[0]) {
      var t := s[1..];
      TrimStartStrips(t);
      assert TrimStart(s) == TrimStart(t);
      forall i | 0 <= i < |s| - |TrimStart(s)|
        ensures IsWhitespace(s[i])
      {
        if i > 0 {
          assert s[i] == t[i - 1];
        }
      }
    } else {
      assert TrimStart(s) == s;
    }
  }

  /** `str::trim_end`: drops the trailing whitespace. */
  function TrimEnd(s: string): (r: string)
    ensures |r| <= |s| && r == s[..|r|]
  {
    if |s| > 0 && IsWhitespace(s[|s| - 1]) then TrimEnd(s[..|s| - 1]) else s
  }

  /** What `trim_end` drops is whitespace, and what it keeps does not end with
      whitespace. */
  lemma {:induction false} TrimEndStrips(s: string)
    ensures forall i :: |TrimEnd(s)| <= i < |s| ==> IsWhitespace(s[i])
    ensures TrimEnd(s) == [] || !IsWhitespace(TrimEnd(s)[|TrimEnd(s)| - 1])
  {
    if |s| > 0 && IsWhitespace(s[|s| - 1]) {
      var t := s[..|s| - 1];
      TrimEndStrips(t);
      assert TrimEnd(s) == TrimEnd(t);
      forall i | |TrimEnd(s)| <= i < |s|
        ensures IsWhitespace(s[i])
      {
        if i < |s| - 1 {
          assert s[i] == t[i];
        }
      }
    } else {
      assert TrimEnd(s) == s;
    }
  }

  /** `str::trim`. */
  function Trim(s: string): string {
    TrimEnd(TrimStart(s))
  }

  /** `s.trim().is_empty()` holds exactly for the blank strings. */
  lemma TrimEmptyIffBlank(s: string)
    ensures Trim(s) == [] <==> IsBlank(s)
  {
    var t := TrimStart(s);
    TrimStartStrips(s);
    TrimEndStrips(t);
    if Trim(s) == [] {
      assert t == [] by { assert t[0..] == t; }
      assert s[..|s|] == s;
    }
  }

  lemma DigitNotWhitespace(c: char)
    requires IsAsciiDigit(c)
    ensures !IsWhitespace(c)
  {
  }

  lemma TrimStartKeeps(s: string)
    requires |s| > 0 && !IsWhitespace(s[0])
    ensures TrimStart(s) == s
  {
  }

  lemma TrimEndKeeps(s: string)
    requires |s| > 0 && !IsWhitespace(s[|s| - 1])
    ensures TrimEnd(s) == s
  {
  }

  /** A string that neither starts nor ends with whitespace is its own trim. */
  lemma TrimKeeps(s: string)
    requires |s| > 0 && !IsWhitespace(s[0]) && !IsWhitespace(s[|s| - 1])
    ensures Trim(s) == s
  {
    TrimStartKeeps(s);
    TrimEndKeeps(s);
  }

  lemma TrimEmpty(s: string)
    requires |s| == 0
    ensures Trim(s) == s
  {
  }

  lemma TrimDigitsNonEmpty(s: string)
    requires |s| > 0 && AllDigits(s)
    ensures Trim(s) == s
  {
    DigitNotWhitespace(s[0]);
    DigitNotWhitespace(s[|s| - 1]);
    TrimKeeps(s);
  }

  /** A string made only of digits is its own trim. */
  lemma TrimDigits(s: string)
    ensures AllDigits(s) ==> Trim(s) == s
  {
    if |s| == 0 {
      TrimEmpty(s);
    } else if AllDigits(s) {
      TrimDigitsNonEmpty(s);
    }
  }

  // ---------------------------------------------------------------------------
  // Decimal digits
  // ---------------------------------------------------------------------------

  function DigitValue(c: char): nat
    requires IsAsciiDigit(c)
  {
    c as int - '0' as int
  }

  function DigitChar(d: nat): (c: char)
    requires d < 10
    ensures IsAsciiDigit(c) && DigitValue(c) == d
  {
    ('0' as int + d) as char
  }

  /** The value of a string of decimal digits, most significant first. */
  function DigitsValue(s: string): nat
    requires AllDigits(s)
  {
    if s == [] then 0 else 10 * DigitsValue(s[..|s| - 1]) + DigitValue(s[|s| - 1])
  }

  /** The decimal rendering of a natural number (`n.to_string()`): digits only,
      without leading zeros, and its value is `n`. */
  function NatToString(n: nat): (r: string)
    ensures |r| > 0 && AllDigits(r)
    ensures r[0] == '0' ==> n == 0 && r == "0"
    ensures DigitsValue(r) == n
  {
    if n < 10 then [DigitChar(n)]
    else
      var p := NatToString(n / 10);
      var r := p + [DigitChar(n % 10)];
      assert r[..|r| - 1] == p;
      r
  }

  // ---------------------------------------------------------------------------
  // Rust integer parsing
  // ---------------------------------------------------------------------------

  /** `s.parse::<i64>()`: an optional `+` or `-` sign and at least one digit,
      with a value in i64's range; anything else is an error. */
  function ParseI64(s: string): (r: Option<int>)
    ensures r.Some? ==> -I64_MAX - 1 <= r.value <= I64_MAX
    ensures AllDigits(s) ==> (r.Some? <==> s != [] && DigitsValue(s) <= I64_MAX)
    ensures AllDigits(s) && r.Some? ==> r.value == DigitsValue(s)
  {
    if |s| > 0 && (s[0] == '+' || s[0] == '-') then
      var d := s[1..];
      if d != [] && AllDigits(d) then
        var v := DigitsValue(d);
        if s[0] == '-' then (var n: int := -(v as int); if v <= I64_MAX + 1 then Some(n) else None)
        else (if v <= I64_MAX then Some(v) else None)
      else None
    else if s != [] && AllDigits(s) && DigitsValue(s) <= I64_MAX then Some(DigitsValue(s))
    else None
  }

  /** `s.parse::<u32>()`: an optional `+` sign and at least one digit, with a
      value that fits in u32; a `-` sign is an invalid digit. */
  function ParseU32(s: string): (r: Option<U32>)
    ensures AllDigits(s) ==> (r.Some? <==> s != [] && DigitsValue(s) <= U32_MAX)
    ensures AllDigits(s) && r.Some? ==> r.value == DigitsValue(s)
    ensures r.Some? ==> s != [] && s[0] != '-'
  {
    var d := if |s| > 0 && s[0] == '+' then s[1..] else s;
    if d != [] && AllDigits(d) && DigitsValue(d) <= U32_MAX then Some(DigitsValue(d)) else None
  }

  /** Printing a u32 and parsing it back gives the same number. */
  lemma ParseU32OfNatToString(n: U32)
    ensures ParseU32(NatToString(n)) == Some(n)
  {
  }

  /** Printing a natural in i64's range and parsing it back gives the same number. */
  lemma ParseI64OfNatToString(n: nat)
    requires n <= I64_MAX
    ensures ParseI64(NatToString(n)) == Some(n)
  {
  }

  /** Two equal renderings come from the same number. */
  lemma NatToStringInjective(a: nat, b: nat)
    requires NatToString(a) == NatToString(b)
    ensures a == b
  {
  }

  // ---------------------------------------------------------------------------
  // Ratios
  // ---------------------------------------------------------------------------

  /** A quotient of a non-negative number by a larger positive one lies in [0, 1]. */
  lemma RatioInUnit(a: real, b: real, x: real)
    requires 0.0 <= a <= b && b > 0.0 && x * b == a
    ensures 0.0 <= x <= 1.0
  {
  }

  /** Scaling a non-negative weight by a rate in [0, 1] keeps it in [0, weight]. */
  lemma ScaledAtMost(rate: real, w: real)
    requires 0.0 <= rate <= 1.0 && w >= 0.0
    ensures 0.0 <= rate * w <= w
  {
    assert (1.0 - rate) * w >= 0.0;
  }

  /** Multiplying by a non-negative weight keeps the order of two values. */
  lemma ScaleMonotone(v: real, f: real, w: real)
    requires 0.0 <= v <= f && w >= 0.0
    ensures 0.0 <= v * w <= f * w
  {
    assert f * w - v * w == (f - v) * w;
  }

  /** `x.clamp(lo, hi)`. */
  function Clamp(x: int, lo: int, hi: int): (r: int)
    requires lo <= hi
    ensures lo <= r <= hi
    ensures lo <= x <= hi ==> r == x
    ensures x < lo ==> r == lo
    ensures x > hi ==> r == hi
  {
    if x < lo then lo else if x > hi then hi else x
  }

  /** A sequence of `n` copies of `c` (`c.to_string().repeat(n)`). */
  function Repeat(c: char, n: nat): (r: string)
    ensures |r| == n
    ensures forall i :: 0 <= i < n ==> r[i] == c
  {
    if n == 0 then [] else Repeat(c, n - 1) + [c]
  }
}
