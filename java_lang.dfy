/**
 * The parts of the Java platform the parse coordinator relies on:
 * 32-bit `int` arithmetic, strings as UTF-16 code units with
 * `codePointAt`/`appendCodePoint`, and `String.format("%0Nx", c)`.
 */
module JavaLang {

  const MinInt: int := -0x8000_0000
  const MaxInt: int := 0x7fff_ffff

  /** A Java `int`. */
  type int32 = x: int | -0x8000_0000 <= x < 0x8000_0000

  /** Two's-complement wrap-around of a mathematical result into a Java `int`. */
  function Wrap(x: int): (r: int32)
    ensures MinInt <= x <= MaxInt ==> r == x
    ensures (r - x) % 0x1_0000_0000 == 0
  {
    (x + 0x8000_0000) % 0x1_0000_0000 - 0x8000_0000
  }

  /** `Math.min` on Java ints. */
  function Min(a: int, b: int): (r: int)
    ensures r <= a && r <= b && (r == a || r == b)
  {
    if a <= b then a else b
  }

  // ---------------------------------------------------------------------
  // Strings: sequences of UTF-16 code units
  // ---------------------------------------------------------------------

  /**
   * Associativity of concatenation. Dafny knows it; calling it hands the
   * solver the instance a proof needs, which keeps the escape-loop proofs
   * cheap.
   */
  lemma AppendAssoc(a: JString, b: JString, c: JString)
    ensures a + (b + c) == (a + b) + c
  {
  }

  /** A Java `char`. */
  type CodeUnit = u: int | 0 <= u < 0x1_0000

  /** The contents of a Java `String` or `StringBuffer`. */
  type JString = seq<CodeUnit>

  predicate IsHighSurrogate(u: int) { 0xD800 <= u < 0xDC00 }

  predicate IsLowSurrogate(u: int) { 0xDC00 <= u < 0xE000 }

  predicate IsSurrogate(u: int) { 0xD800 <= u < 0xE000 }

  /** A Unicode code point (`Character.isValidCodePoint`). */
  predicate IsCodePoint(c: int) { 0 <= c < 0x11_0000 }

  /** Position `i` of `s` holds a high surrogate immediately followed by a low one. */
  predicate StartsPair(s: JString, i: nat)
  {
    i + 1 < |s| && IsHighSurrogate(s[i]) && IsLowSurrogate(s[i + 1])
  }

  /**
   * `String.codePointAt(i)`: the supplementary code point when `i` starts a
   * surrogate pair, otherwise the code unit at `i` itself (a lone surrogate
   * included).
   */
  function CodePointAt(s: JString, i: nat): (c: int)
    requires i < |s|
    ensures IsCodePoint(c)
    ensures c >= 0x1_0000 <==> StartsPair(s, i)
    ensures !StartsPair(s, i) ==> c == s[i]
  {
    if StartsPair(s, i) then 0x1_0000 + (s[i] as int - 0xD800) * 0x400 + (s[i + 1] as int - 0xDC00)
    else s[i]
  }

  /** `Character.charCount`: the number of code units that encode `c`. */
  function CharCount(c: int): (n: nat)
    ensures n == 1 || n == 2
  {
    if c >= 0x1_0000 then 2 else 1
  }

  /** `Character.toChars`, the code units `StringBuffer.appendCodePoint(c)` appends. */
  function ToChars(c: int): (r: JString)
    requires IsCodePoint(c)
    ensures |r| == CharCount(c)
    ensures c < 0x1_0000 ==> r == [c]
    ensures c >= 0x1_0000 ==> IsHighSurrogate(r[0]) && IsLowSurrogate(r[1])
  {
    if c < 0x1_0000 then [c]
    else [0xD800 + (c - 0x1_0000) / 0x400, 0xDC00 + (c - 0x1_0000) % 0x400]
  }

  /** Reading a code point and appending it again reproduces the code units it was read from. */
  lemma ToCharsOfCodePointAt(s: JString, i: nat)
    requires i < |s|
    ensures i + CharCount(CodePointAt(s, i)) <= |s|
    ensures ToChars(CodePointAt(s, i)) == s[i .. i + CharCount(CodePointAt(s, i))]
  {
    if StartsPair(s, i) {
      var h, l := s[i] as int - 0xD800, s[i + 1] as int - 0xDC00;
      assert (h * 0x400 + l) / 0x400 == h && (h * 0x400 + l) % 0x400 == l;
    }
  }

  /** Encoding a supplementary code point and reading it back yields that code point. */
  lemma CodePointAtOfToChars(c: int)
    requires 0x1_0000 <= c < 0x11_0000
    ensures StartsPair(ToChars(c), 0) && CodePointAt(ToChars(c), 0) == c
  {
    var d := c - 0x1_0000;
    assert d == d / 0x400 * 0x400 + d % 0x400;
  }

  /**
   * A string literal made of BMP characters, one code unit each (any other
   * character would become U+FFFD).
   */
  function Literal(s: string): (r: JString)
    ensures |r| == |s|
  {
    seq(|s|, k requires 0 <= k < |s| => if s[k] as int < 0x1_0000 then s[k] as int else 0xFFFD)
  }

  // ---------------------------------------------------------------------
  // String.format("%0Nx", n): lower-case hexadecimal, zero-padded
  // ---------------------------------------------------------------------

  predicate IsLowerHexDigit(u: int)
  {
    '0' as int <= u <= '9' as int || 'a' as int <= u <= 'f' as int
  }

  predicate AllLowerHexDigits(s: JString)
  {
    forall k :: 0 <= k < |s| ==> IsLowerHexDigit(s[k])
  }

  function HexDigit(d: int): (u: CodeUnit)
    requires 0 <= d < 16
    ensures IsLowerHexDigit(u)
  {
    if d < 10 then '0' as int + d else 'a' as int + (d - 10)
  }

  function DigitValue(u: int): (d: int)
    requires IsLowerHexDigit(u)
    ensures 0 <= d < 16
  {
    if u <= '9' as int then u - '0' as int else u - 'a' as int + 10
  }

  /** The value of a sequence of lower-case hexadecimal digits (the inverse of formatting). */
  function HexValue(s: JString): (n: nat)
    requires AllLowerHexDigits(s)
  {
    if s == [] then 0 else HexValue(s[..|s| - 1]) * 16 + DigitValue(s[|s| - 1])
  }

  function Pow16(k: nat): (p: nat)
    ensures p >= 1
  {
    if k == 0 then 1 else 16 * Pow16(k - 1)
  }

  /** The length of the shortest hexadecimal numeral of `n` (`Integer.toHexString(n).length()`). */
  function HexWidth(n: nat): (k: nat)
    ensures k >= 1
    decreases n
  {
    if n < 16 then 1 else 1 + HexWidth(n / 16)
  }

  /** `n` with its `j` lowest hexadecimal digits dropped. */
  function ShiftHex(n: nat, j: nat): nat
    decreases j
  {
    if j == 0 then n else ShiftHex(n / 16, j - 1)
  }

  /** The lowest `len` hexadecimal digits of `n`, most significant first. */
  function HexDigits(n: nat, len: nat): (r: JString)
    ensures |r| == len
  {
    seq(len, k requires 0 <= k < len => HexDigit(ShiftHex(n, len - 1 - k) % 16))
  }

  /**
   * `String.format("%0" + width + "x", n)`: the numeral of `n`, zero-padded
   * on the left to at least `width` digits.
   */
  function FormatHex(n: nat, width: nat): JString
  {
    HexDigits(n, if HexWidth(n) < width then width else HexWidth(n))
  }

  /** The lowest `len` digits of a number below 16^len read back as that number. */
  lemma {:induction false} HexDigitsValue(n: nat, len: nat)
    requires n < Pow16(len)
    ensures AllLowerHexDigits(HexDigits(n, len)) && HexValue(HexDigits(n, len)) == n
    decreases len
  {
    var s := HexDigits(n, len);
    assert AllLowerHexDigits(s) by {
      forall k | 0 <= k < len ensures IsLowerHexDigit(s[k]) {
        assert s[k] == HexDigit(ShiftHex(n, len - 1 - k) % 16);
      }
    }
    if len > 0 {
      HexDigitsValue(n / 16, len - 1);
      assert s[..len - 1] == HexDigits(n / 16, len - 1) by {
        forall k | 0 <= k < len - 1 ensures s[k] == HexDigits(n / 16, len - 1)[k] {
          assert ShiftHex(n, len - 1 - k) == ShiftHex(n / 16, len - 2 - k);
        }
      }
      assert s[len - 1] == HexDigit(ShiftHex(n, 0) % 16) == HexDigit(n % 16);
    }
  }

  /** A number below 16^k has a numeral of at most k digits. */
  lemma {:induction false} HexWidthBound(n: nat, k: nat)
    requires 1 <= k && n < Pow16(k)
    ensures HexWidth(n) <= k
    decreases k
  {
    if n >= 16 {
      assert Pow16(1) == 16;
      HexWidthBound(n / 16, k - 1);
    }
  }

  /**
   * `%0Nx` of a value below 16^N is exactly N lower-case hexadecimal digits
   * whose value is the number formatted.
   */
  lemma FormatHexExact(n: nat, width: nat)
    requires 1 <= width && n < Pow16(width)
    ensures |FormatHex(n, width)| == width
    ensures AllLowerHexDigits(FormatHex(n, width))
    ensures HexValue(FormatHex(n, width)) == n
  {
    HexWidthBound(n, width);
    HexDigitsValue(n, width);
  }
}
