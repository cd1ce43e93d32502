/**
 * String primitives the LockMate code relies on: JavaScript whitespace and
 * `String.prototype.trim`, `Number.prototype.toString()` for non-negative
 * integers, `String.prototype.padStart`, and the email regular expression
 * of the sign-in form.
 */
module Text {

  /** A character JavaScript's `trim` strips and `\s` matches
      (ECMAScript WhiteSpace and LineTerminator code points). */
  predicate IsSpace(c: char) {
    || c == '\t' || c == '\n' || c == '\U{000B}' || c == '\U{000C}' || c == '\r' || c == ' '
    || c == '\U{00A0}' || c == '\U{1680}' || ('\U{2000}' <= c <= '\U{200A}')
    || c == '\U{2028}' || c == '\U{2029}' || c == '\U{202F}' || c == '\U{205F}'
    || c == '\U{3000}' || c == '\U{FEFF}'
  }

  /** `s.trim()` is the empty string, i.e. falsy in a JavaScript condition. */
  predicate IsBlank(s: string) {
    forall k | 0 <= k < |s| :: IsSpace(s[k])
  }

  /** Drops leading whitespace: the result is a suffix of `s` that is empty or starts with a non-space. */
  function TrimStart(s: string): (r: string)
    ensures |r| <= |s| && r == s[|s| - |r|..]
    ensures forall k | 0 <= k < |s| - |r| :: IsSpace(s[k])
    ensures r != [] ==> !IsSpace(r[0])
    ensures r == [] <==> IsBlank(s)
  {
    if |s| > 0 && IsSpace(s[0]) then TrimStart(s[1..]) else s
  }

  /** Drops trailing whitespace: the result is a prefix of `s` that is empty or ends with a non-space. */
  function TrimEnd(s: string): (r: string)
    ensures |r| <= |s| && r == s[..|r|]
    ensures forall k | |r| <= k < |s| :: IsSpace(s[k])
    ensures r != [] ==> !IsSpace(r[|r| - 1])
    ensures r == [] <==> IsBlank(s)
  {
    if |s| > 0 && IsSpace(s[|s| - 1]) then TrimEnd(s[..|s| - 1]) else s
  }

  /** `s.trim()`: empty exactly when every character of `s` is whitespace; otherwise it
      neither starts nor ends with whitespace. `TrimStart` and `TrimEnd` each state that
      they keep a slice. */
  function Trim(s: string): (r: string)
    ensures r == [] <==> IsBlank(s)
    ensures r != [] ==> !IsSpace(r[0]) && !IsSpace(r[|r| - 1])
    ensures |r| <= |s|
  {
    var t := TrimStart(s);
    var r := TrimEnd(t);
    assert r != [] ==> r[0] == t[0];
    r
  }

  predicate IsDigit(c: char) {
    '0' <= c <= '9'
  }

  predicate AllDigits(s: string) {
    forall k | 0 <= k < |s| :: IsDigit(s[k])
  }

  function DigitChar(d: nat): (c: char)
    requires d < 10
    ensures IsDigit(c)
  {
    ('0' as int + d) as char
  }

  function DigitValue(c: char): (d: nat)
    requires IsDigit(c)
    ensures d < 10
  {
    c as int - '0' as int
  }

  function Pow10(k: nat): (p: nat)
    ensures p >= 1
  {
    if k == 0 then 1 else 10 * Pow10(k - 1)
  }

  /** `n.toString()` for a non-negative integer: its shortest decimal numeral. */
  function DecimalString(n: nat): (r: string)
    ensures |r| >= 1 && AllDigits(r)
    ensures |r| > 1 ==> r[0] != '0'
  {
    if n < 10 then [DigitChar(n)] else DecimalString(n / 10) + [DigitChar(n % 10)]
  }

  /** The value of a numeral of decimal digits (leading zeros allowed). */
  function ParseDecimal(s: string): nat
    requires AllDigits(s)
  {
    if s == [] then 0 else ParseDecimal(s[..|s| - 1]) * 10 + DigitValue(s[|s| - 1])
  }

  /** Reading back the numeral `toString()` writes gives the number: the encoding is injective. */
  lemma {:induction false} DecimalRoundTrip(n: nat)
    ensures ParseDecimal(DecimalString(n)) == n
  {
    if n >= 10 {
      DecimalRoundTrip(n / 10);
      var s := DecimalString(n);
      assert s[..|s| - 1] == DecimalString(n / 10);
    }
  }

  /** A number with exactly `k` decimal digits is written with exactly `k` characters. */
  lemma {:induction false} DecimalLength(n: nat, k: nat)
    requires 1 <= k && Pow10(k - 1) <= n < Pow10(k)
    ensures |DecimalString(n)| == k
  {
    if k > 1 {
      assert Pow10(k - 1) == 10 * Pow10(k - 2);
      DecimalLength(n / 10, k - 1);
    }
  }

  /** A positive number lies between the powers of ten its written length gives. */
  lemma {:induction false} DecimalMagnitude(n: nat)
    requires n >= 1
    ensures Pow10(|DecimalString(n)| - 1) <= n < Pow10(|DecimalString(n)|)
  {
    if n >= 10 {
      DecimalMagnitude(n / 10);
      var len := |DecimalString(n / 10)|;
      assert |DecimalString(n)| == len + 1;
      assert Pow10(len) == 10 * Pow10(len - 1);
      assert Pow10(len + 1) == 10 * Pow10(len);
      assert 10 * Pow10(len - 1) <= 10 * (n / 10) <= n;
      assert n < 10 * (n / 10) + 10 <= 10 * Pow10(len);
    }
  }

  /** For a positive number, `toString()` has `k` characters exactly when the number has
      `k` decimal digits. */
  lemma DecimalLengthExact(n: nat, k: nat)
    requires 1 <= n && 1 <= k
    ensures |DecimalString(n)| == k <==> Pow10(k - 1) <= n < Pow10(k)
  {
    if Pow10(k - 1) <= n < Pow10(k) {
      DecimalLength(n, k);
    }
    DecimalMagnitude(n);
  }

  /** Every number in 10000000..99999999 is written with eight digits. */
  lemma EightDigits(n: nat)
    requires 10000000 <= n <= 99999999
    ensures |DecimalString(n)| == 8
  {
    assert Pow10(7) == 10000000 && Pow10(8) == 100000000;
    DecimalLength(n, 8);
  }

  function Repeat(c: char, n: nat): (r: string)
    ensures |r| == n && forall k | 0 <= k < n :: r[k] == c
  {
    if n == 0 then [] else Repeat(c, n - 1) + [c]
  }

  /** `s.padStart(width, fill)` for a one-character `fill`: `fill` repeated in front
      of `s` up to `width` characters; `s` itself when it is already that long. */
  function PadStart(s: string, width: nat, fill: char): (r: string)
    ensures |r| == if |s| >= width then |s| else width
    ensures r[|r| - |s|..] == s
    ensures forall k | 0 <= k < |r| - |s| :: r[k] == fill
  {
    if |s| >= width then s else Repeat(fill, width - |s|) + s
  }

  lemma {:induction false} ParseZeros(k: nat)
    ensures AllDigits(Repeat('0', k)) && ParseDecimal(Repeat('0', k)) == 0
  {
    if k > 0 {
      assert Repeat('0', k)[..k - 1] == Repeat('0', k - 1);
      ParseZeros(k - 1);
    }
  }

  /** Leading zeros do not change the value of a numeral. */
  lemma {:induction false} ParseIgnoresLeadingZeros(k: nat, s: string)
    requires AllDigits(s)
    ensures AllDigits(Repeat('0', k) + s) && ParseDecimal(Repeat('0', k) + s) == ParseDecimal(s)
  {
    var t := Repeat('0', k) + s;
    if s == [] {
      assert t == Repeat('0', k);
      ParseZeros(k);
    } else {
      assert t[..|t| - 1] == Repeat('0', k) + s[..|s| - 1];
      ParseIgnoresLeadingZeros(k, s[..|s| - 1]);
    }
  }

  /** Zero-padding a decimal numeral with padStart keeps its value, so padded numerals
      of different numbers differ. */
  lemma PaddedDecimalRoundTrip(n: nat, width: nat)
    ensures AllDigits(PadStart(DecimalString(n), width, '0'))
    ensures ParseDecimal(PadStart(DecimalString(n), width, '0')) == n
  {
    var s := DecimalString(n);
    DecimalRoundTrip(n);
    if |s| < width {
      ParseIgnoresLeadingZeros(width - |s|, s);
    }
  }

  predicate NoSpaceIn(s: string, i: int, j: int)
    requires 0 <= i <= j <= |s|
  {
    forall k | i <= k < j :: !IsSpace(s[k])
  }

  /** The pattern `\S+@\S+\.\S+` occurs in `s` with its '@' at index `at` and its '.' at index
      `dot`. Each non-space run can be shortened to the character next to '@' or '.', so
      only those characters and the run between '@' and '.' need checking. */
  predicate EmailAt(s: string, at: int, dot: int) {
    && 0 < at && at + 1 < dot && dot + 1 < |s|
    && s[at] == '@' && s[dot] == '.'
    && !IsSpace(s[at - 1]) && NoSpaceIn(s, at + 1, dot) && !IsSpace(s[dot + 1])
  }

  /** `/\S+@\S+\.\S+/.test(s)`: the pattern is not anchored, so it holds when it occurs anywhere. */
  predicate EmailShaped(s: string) {
    exists at, dot | 0 < at < |s| && 0 < dot < |s| :: EmailAt(s, at, dot)
  }

  /** The test finds the pattern anywhere: text around a matching address does not hide it. */
  lemma EmailShapedInContext(pre: string, s: string, post: string)
    requires EmailShaped(s)
    ensures EmailShaped(pre + s + post)
  {
    var t := pre + s + post;
    var at, dot :| 0 < at < |s| && 0 < dot < |s| && EmailAt(s, at, dot);
    var n := |pre|;
    assert forall k | 0 <= k < |s| :: t[n + k] == s[k];
    assert NoSpaceIn(t, n + at + 1, n + dot);
    assert EmailAt(t, n + at, n + dot);
  }

  /** Examples of what the email test accepts and rejects. */
  lemma EmailShapedExamples()
    ensures EmailShaped("a@b.c")
    ensures EmailShaped("name: x@y.org")
    ensures !EmailShaped("a@b")
    ensures !EmailShaped("a@.c")
    ensures !EmailShaped("a @b.c")
  {
    assert EmailAt("a@b.c", 1, 3);
    assert EmailAt("name: x@y.org", 7, 9);
  }
}
