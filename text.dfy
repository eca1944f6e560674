/**
 * String primitives the repository relies on from its two host languages:
 * Python's `str.strip()` and slicing, `str(n)` and zero-padded numbers for the
 * backend; JavaScript's `String.prototype.trim`, `lastIndexOf` and `substring`
 * for the front end. Strings are sequences of Unicode scalar values.
 */
module Text {

  /** Python's `str.isspace()` on one character: what `str.strip()` removes. */
  predicate IsPythonSpace(c: char) {
    var n := c as int;
    (0x09 <= n <= 0x0D) || (0x1C <= n <= 0x20) || n == 0x85 || n == 0xA0 || n == 0x1680
    || (0x2000 <= n <= 0x200A) || n == 0x2028 || n == 0x2029 || n == 0x202F
    || n == 0x205F || n == 0x3000
  }

  /** ECMAScript WhiteSpace and LineTerminator: what `String.prototype.trim` removes. */
  predicate IsJavaScriptSpace(c: char) {
    var n := c as int;
    (0x09 <= n <= 0x0D) || n == 0x20 || n == 0xA0 || n == 0x1680
    || (0x2000 <= n <= 0x200A) || n == 0x2028 || n == 0x2029 || n == 0x202F
    || n == 0x205F || n == 0x3000 || n == 0xFEFF
  }

  /** Every character of `s` is in the class `ws`. */
  predicate AllIn(ws: char -> bool, s: string) {
    forall k :: 0 <= k < |s| ==> ws(s[k])
  }

  /** How many characters of class `ws` the string starts with. */
  function LeadingRun(ws: char -> bool, s: string): (n: nat)
    ensures n <= |s|
    ensures forall k :: 0 <= k < n ==> ws(s[k])
    ensures n < |s| ==> !ws(s[n])
  {
    if |s| > 0 && ws(s[0]) then 1 + LeadingRun(ws, s[1..]) else 0
  }

  /** Where the run of characters of class `ws` that the string ends with begins. */
  function TrailingStart(ws: char -> bool, s: string): (m: nat)
    ensures m <= |s|
    ensures forall k :: m <= k < |s| ==> ws(s[k])
    ensures m > 0 ==> !ws(s[m - 1])
  {
    if |s| > 0 && ws(s[|s| - 1]) then TrailingStart(ws, s[..|s| - 1]) else |s|
  }

  /** Removes the characters of class `ws` from both ends: first the leading run, then the trailing one. */
  function Strip(ws: char -> bool, s: string): string {
    var t := s[LeadingRun(ws, s)..];
    t[..TrailingStart(ws, t)]
  }

  /** Python's `s.strip()` with no argument. */
  function PyStrip(s: string): string {
    Strip(IsPythonSpace, s)
  }

  /** JavaScript's `s.trim()`. */
  function JsTrim(s: string): string {
    Strip(IsJavaScriptSpace, s)
  }

  /**
   * What stripping means: the result is the slice `s[i..j]` that remains once
   * the run of `ws` characters before `i` and the one from `j` on are removed,
   * and it neither starts nor ends with such a character.
   */
  lemma StripIsSlice(ws: char -> bool, s: string)
    ensures exists i, j :: (0 <= i <= j <= |s| && Strip(ws, s) == s[i..j]
      && (forall k :: 0 <= k < i ==> ws(s[k])) && (forall k :: j <= k < |s| ==> ws(s[k])))
    ensures Strip(ws, s) != [] ==> !ws(Strip(ws, s)[0]) && !ws(Strip(ws, s)[|Strip(ws, s)| - 1])
  {
    var i := LeadingRun(ws, s);
    var t := s[i..];
    var m := TrailingStart(ws, t);
    var j := i + m;
    assert Strip(ws, s) == s[i..j];
    forall k | j <= k < |s| ensures ws(s[k]) {
      assert s[k] == t[k - i];
    }
  }

  /** Stripping leaves nothing exactly when every character of `s` is in the class. */
  lemma StripEmptyIff(ws: char -> bool, s: string)
    ensures Strip(ws, s) == [] <==> AllIn(ws, s)
  {
    var i := LeadingRun(ws, s);
    var t := s[i..];
    var m := TrailingStart(ws, t);
    if i < |s| {
      assert t[0] == s[i];
      assert m > 0;
      assert !ws(s[i + m - 1]) by { assert s[i + m - 1] == t[m - 1]; }
    }
  }

  /** Python's `s[:n]` for `n >= 0`: the first `n` characters, or all of `s` if it is shorter. */
  function Truncate(s: string, n: nat): (r: string)
    ensures r <= s
    ensures |r| == if |s| <= n then |s| else n
  {
    if |s| <= n then s else s[..n]
  }

  predicate IsDigit(c: char) {
    '0' <= c <= '9'
  }

  predicate AllDigits(s: string) {
    forall k :: 0 <= k < |s| ==> IsDigit(s[k])
  }

  function DigitChar(n: nat): (c: char)
    requires n < 10
    ensures IsDigit(c)
  {
    ['0', '1', '2', '3', '4', '5', '6', '7', '8', '9'][n]
  }

  function DigitValue(c: char): (n: nat)
    requires IsDigit(c)
  {
    c as int - '0' as int
  }

  /** The number a string of decimal digits denotes (most significant first). */
  function DigitsValue(s: string): nat
    requires AllDigits(s)
  {
    if s == [] then 0 else DigitsValue(s[..|s| - 1]) * 10 + DigitValue(s[|s| - 1])
  }

  function Pow10(w: nat): (p: nat)
    ensures p >= 1
  {
    if w == 0 then 1 else 10 * Pow10(w - 1)
  }

  /** `str(n)` for a natural number: its decimal digits, without leading zeros. */
  function Decimal(n: nat): (r: string)
    ensures |r| >= 1 && AllDigits(r)
    ensures r[0] != '0' || n == 0
  {
    if n < 10 then [DigitChar(n)] else Decimal(n / 10) + [DigitChar(n % 10)]
  }

  /** `Decimal` loses nothing: reading its digits back gives `n` again. */
  lemma {:induction false} DecimalRoundTrip(n: nat)
    ensures DigitsValue(Decimal(n)) == n
  {
    var r := Decimal(n);
    if n >= 10 {
      DecimalRoundTrip(n / 10);
      assert r[..|r| - 1] == Decimal(n / 10);
    }
  }

  /** `n` written in exactly `width` decimal digits, zero-padded on the left (`%02d`, `%04d`). */
  function Pad(n: nat, width: nat): (r: string)
    requires n < Pow10(width)
    ensures |r| == width && AllDigits(r)
  {
    if width == 0 then "" else Pad(n / 10, width - 1) + [DigitChar(n % 10)]
  }

  /** Padding loses nothing: reading the digits back gives `n` again. */
  lemma {:induction false} PadRoundTrip(n: nat, width: nat)
    requires n < Pow10(width)
    ensures DigitsValue(Pad(n, width)) == n
  {
    if width > 0 {
      var d := n % 10;
      var front := Pad(n / 10, width - 1);
      var r := front + [DigitChar(d)];
      assert Pad(n, width) == r;
      assert r[..|r| - 1] == front;
      PadRoundTrip(n / 10, width - 1);
      assert DigitValue(DigitChar(d)) == d;
      assert DigitsValue(r) == DigitsValue(front) * 10 + d;
      assert (n / 10) * 10 + d == n;
    }
  }

  /** JavaScript's `s.lastIndexOf(c)`: the last position holding `c`, or -1 when there is none. */
  function LastIndexOf(s: string, c: char): (r: int)
    ensures -1 <= r < |s|
    ensures r >= 0 ==> s[r] == c
    ensures forall k :: r < k < |s| ==> s[k] != c
  {
    if |s| == 0 then -1
    else if s[|s| - 1] == c then |s| - 1
    else LastIndexOf(s[..|s| - 1], c)
  }

  function Clamp(i: int, n: nat): (r: nat)
    ensures r <= n
  {
    if i < 0 then 0 else if i > n then n else i
  }

  /**
   * JavaScript's `s.substring(start, end)`: both bounds are clamped into
   * `[0, |s|]` and swapped when the first exceeds the second.
   */
  function Substring(s: string, start: int, end: int): (r: string)
    ensures 0 <= start <= end <= |s| ==> r == s[start..end]
    ensures start <= 0 && end <= 0 ==> r == ""
  {
    var a := Clamp(start, |s|);
    var b := Clamp(end, |s|);
    if a <= b then s[a..b] else s[b..a]
  }
}
