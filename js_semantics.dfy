/**
 * The few pieces of the JavaScript runtime the profiler and the upload route
 * rely on: whitespace trimming, ASCII case folding, `Math.round`, the
 * "has a fractional part" test, and the two parsers `Number` and `Date.parse`,
 * which are kept abstract.
 */
module JsSemantics {
  import opened Wrappers

  /**
   * `Number(s)` and `Date.parse(s)` are not reimplemented: a `Parsers` value
   * carries some implementation of each, and every property of the model is
   * proved for all of them. `None` stands for `NaN`; a timestamp is in
   * milliseconds.
   */
  datatype Parsers = Parsers(toNumber: string -> Option<real>, parseDate: string -> Option<int>)

  /** The characters `String.prototype.trim` removes (WhiteSpace and LineTerminator). */
  predicate IsWhitespace(c: char) {
    || c == '\t' || c == '\n' || c == '\U{000B}' || c == '\U{000C}' || c == '\r' || c == ' '
    || c == '\U{00A0}' || c == '\U{1680}' || ('\U{2000}' <= c <= '\U{200A}')
    || c == '\U{2028}' || c == '\U{2029}' || c == '\U{202F}' || c == '\U{205F}'
    || c == '\U{3000}' || c == '\U{FEFF}'
  }

  /** Drops leading whitespace: the result is the longest suffix that does not start with whitespace. */
  function TrimStart(s: string): (r: string)
    ensures |r| <= |s| && r == s[|s| - |r|..]
    ensures forall i :: 0 <= i < |s| - |r| ==> IsWhitespace(s[i])
    ensures r == [] || !IsWhitespace(r[0])
  {
    if s != [] && IsWhitespace(s[0]) then TrimStart(s[1..]) else s
  }

  /** Drops trailing whitespace: the result is the longest prefix that does not end with whitespace. */
  function TrimEnd(s: string): (r: string)
    ensures |r| <= |s| && r == s[..|r|]
    ensures forall i :: |r| <= i < |s| ==> IsWhitespace(s[i])
    ensures r == [] || !IsWhitespace(r[|r| - 1])
  {
    if s != [] && IsWhitespace(s[|s| - 1]) then TrimEnd(s[..|s| - 1]) else s
  }

  /** `String.prototype.trim`. */
  function Trim(s: string): string {
    TrimEnd(TrimStart(s))
  }

  /** A string that neither starts nor ends with whitespace is its own trim. */
  lemma TrimUnchanged(s: string)
    requires s == [] || (!IsWhitespace(s[0]) && !IsWhitespace(s[|s| - 1]))
    ensures Trim(s) == s
  {
    assert TrimStart(s) == s;
  }

  /** Trimming twice trims nothing more. */
  lemma TrimIdempotent(s: string)
    ensures Trim(Trim(s)) == Trim(s)
  {
    var u := TrimStart(s);
    var t := TrimEnd(u);
    if t != [] {
      assert t[0] == u[0];
    }
    TrimUnchanged(t);
  }

  /** A string trims to the empty string exactly when every character of it is whitespace. */
  lemma TrimEmptyIffAllWhitespace(s: string)
    ensures Trim(s) == "" <==> forall i :: 0 <= i < |s| ==> IsWhitespace(s[i])
  {
  }

  /** ASCII upper case to lower case; every other character is left alone. */
  function LowerAscii(c: char): (r: char)
    ensures 'A' <= c <= 'Z' ==> 'a' <= r <= 'z' && r as int - c as int == 32
    ensures !('A' <= c <= 'Z') ==> r == c
  {
    if 'A' <= c <= 'Z' then (c as int + 32) as char else c
  }

  /** Case folding of a string, character by character. */
  function Lower(s: string): (r: string)
    ensures |r| == |s|
    ensures forall i :: 0 <= i < |s| ==> r[i] == LowerAscii(s[i])
  {
    seq(|s|, i requires 0 <= i < |s| => LowerAscii(s[i]))
  }

  /**
   * `s` ends with the lower-case `suffix` when ASCII letters are compared
   * without regard to case. This is what both `/id$/i` and
   * `s.toLowerCase().endsWith(".csv")` decide: the non-Unicode `i` flag never
   * folds a non-ASCII character onto an ASCII one, and no non-ASCII character
   * lower-cases to one of the ASCII characters of these suffixes.
   */
  predicate EndsWithIgnoringCase(s: string, suffix: string) {
    |s| >= |suffix| && Lower(s[|s| - |suffix|..]) == suffix
  }

  /**
   * `Math.round` on exact values: the nearest integer, halves rounded up
   * (towards positive infinity), as JavaScript does.
   */
  function RoundHalfUp(x: real): (r: int)
    ensures x - 0.5 < r as real <= x + 0.5
  {
    (x + 0.5).Floor
  }

  /** Rounding a quotient of integers half up is integer division with half the divisor added. */
  lemma RoundHalfUpQuotient(a: int, b: int)
    requires b > 0
    ensures RoundHalfUp(a as real / b as real) == (2 * a + b) / (2 * b)
  {
    var r := RoundHalfUp(a as real / b as real);
    HalfUpScaled(a, b, r);
    DivisionUnique(2 * a + b, 2 * b, r);
  }

  /** Scaling `a / b - 0.5 < r <= a / b + 0.5` by `2 * b`. */
  lemma HalfUpScaled(a: int, b: int, r: int)
    requires b > 0
    requires a as real / b as real - 0.5 < r as real <= a as real / b as real + 0.5
    ensures r * (2 * b) <= 2 * a + b < r * (2 * b) + 2 * b
  {
    ScaledUpper(a, b, r);
    ScaledLower(a, b, r);
  }

  lemma ScaledUpper(a: int, b: int, r: int)
    requires b > 0
    requires r as real <= a as real / b as real + 0.5
    ensures r * (2 * b) <= 2 * a + b
  {
    var x, bb := a as real / b as real, b as real;
    MulLessEq(r as real, x + 0.5, bb);
    assert (x + 0.5) * bb == a as real + 0.5 * bb;
    assert (r * b) as real == (r as real) * bb;
  }

  lemma ScaledLower(a: int, b: int, r: int)
    requires b > 0
    requires a as real / b as real - 0.5 < r as real
    ensures 2 * a + b < r * (2 * b) + 2 * b
  {
    var x, bb := a as real / b as real, b as real;
    MulLess(x - 0.5, r as real, bb);
    assert (x - 0.5) * bb == a as real - 0.5 * bb;
    assert (r * b) as real == (r as real) * bb;
  }

  lemma MulLessEq(a: real, b: real, c: real)
    requires a <= b && c > 0.0
    ensures a * c <= b * c
  {
  }

  lemma MulLess(a: real, b: real, c: real)
    requires a < b && c > 0.0
    ensures a * c < b * c
  {
  }

  /** The quotient is the only `r` with `r * d <= n < (r + 1) * d`. */
  lemma DivisionUnique(n: int, d: int, r: int)
    requires d > 0 && r * d <= n < r * d + d
    ensures n / d == r
  {
    var q := n / d;
    assert q * d <= n < q * d + d;
    if r < q {
      assert (r + 1) * d <= q * d by { MulLeInt(r + 1, q, d); }
    } else if r > q {
      assert (q + 1) * d <= r * d by { MulLeInt(q + 1, r, d); }
    }
  }

  /** Integer division by a positive divisor is monotone. */
  lemma DivisionMonotone(m: int, n: int, d: int)
    requires d > 0 && m <= n
    ensures m / d <= n / d
  {
    var p, q := m / d, n / d;
    assert p * d <= m && n < q * d + d;
    if p > q {
      MulLeInt(q + 1, p, d);
    }
  }

  lemma MulLeInt(a: int, b: int, c: int)
    requires a <= b && c > 0
    ensures a * c <= b * c
  {
  }

  /** `n % 1 !== 0` for a finite number: it is not a whole number. */
  predicate HasFraction(x: real) {
    x.Floor as real != x
  }

  /**
   * Whole numbers have no fractional part, and the test does not depend on
   * the sign (JavaScript's `%` keeps the sign of `n`, so `-2.5 % 1` is -0.5)
   * nor on adding a whole number.
   */
  lemma HasFractionFacts(x: real, k: int)
    ensures !HasFraction(k as real)
    ensures HasFraction(-x) == HasFraction(x)
    ensures HasFraction(x + k as real) == HasFraction(x)
  {
    if HasFraction(x) {
      assert (-x).Floor == -x.Floor - 1;
      assert (x + k as real).Floor == x.Floor + k;
    }
  }

  /**
   * The case-insensitive suffix test compares character by character:
   * each character of the tail of `s`, case-folded, is the suffix's character.
   */
  lemma EndsWithIgnoringCaseIff(s: string, suffix: string)
    ensures EndsWithIgnoringCase(s, suffix) <==>
      |s| >= |suffix| && forall i :: 0 <= i < |suffix| ==> LowerAscii(s[|s| - |suffix| + i]) == suffix[i]
  {
    if |s| >= |suffix| {
      var tail := s[|s| - |suffix|..];
      assert forall i :: 0 <= i < |suffix| ==> tail[i] == s[|s| - |suffix| + i];
    }
  }
}
