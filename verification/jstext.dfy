/** The string operations the booking code relies on: `String.prototype.trim`,
    `charCodeAt(0)` over the code points of `[...s]`, and the decimal text a
    template literal produces for an integral number. */
module JsText {

  /** The WhiteSpace and LineTerminator code points of ECMA-262 (sections 12.2
      and 12.3): exactly what `trim` strips from either end. */
  predicate IsJsSpace(c: char)
  {
    var n := c as int;
    n == 0x09 || n == 0x0A || n == 0x0B || n == 0x0C || n == 0x0D
    || n == 0x20 || n == 0xA0 || n == 0x1680 || (0x2000 <= n <= 0x200A)
    || n == 0x2028 || n == 0x2029 || n == 0x202F || n == 0x205F
    || n == 0x3000 || n == 0xFEFF
  }

  predicate AllSpace(s: string)
  {
    forall i | 0 <= i < |s| :: IsJsSpace(s[i])
  }

  /** Length of the run of white space that opens `s`. */
  function LeadingSpace(s: string): (n: nat)
    ensures n <= |s| && AllSpace(s[..n])
    ensures n < |s| ==> !IsJsSpace(s[n])
    decreases |s|
  {
    if |s| > 0 && IsJsSpace(s[0]) then
      var n := 1 + LeadingSpace(s[1..]);
      assert forall i | 1 <= i < n :: s[i] == s[1..][i - 1];
      n
    else 0
  }

  /** Length of the run of white space that closes `s`. */
  function TrailingSpace(s: string): (n: nat)
    ensures n <= |s| && AllSpace(s[|s| - n..])
    ensures n < |s| ==> !IsJsSpace(s[|s| - n - 1])
    decreases |s|
  {
    if |s| > 0 && IsJsSpace(s[|s| - 1]) then
      var n := 1 + TrailingSpace(s[..|s| - 1]);
      assert forall i | |s| - n <= i < |s| - 1 :: s[i] == s[..|s| - 1][i];
      n
    else 0
  }

  /** `s.trim()`: `s` without its leading and trailing white space. */
  function Trim(s: string): string
  {
    var i := LeadingSpace(s);
    s[i..|s| - TrailingSpace(s[i..])]
  }

  /** The trimmed text is a slice of `s` with only white space around it; it
      is empty exactly when `s` is all white space, and otherwise neither
      starts nor ends with white space. */
  lemma TrimSpec(s: string)
    ensures exists i, j | 0 <= i <= j <= |s| :: Trim(s) == s[i..j] && AllSpace(s[..i]) && AllSpace(s[j..])
    ensures Trim(s) == [] <==> AllSpace(s)
    ensures Trim(s) != [] ==> !IsJsSpace(Trim(s)[0]) && !IsJsSpace(Trim(s)[|Trim(s)| - 1])
  {
    var i := LeadingSpace(s);
    var t := TrailingSpace(s[i..]);
    var r := s[i..|s| - t];
    assert r == Trim(s);
    assert s[i..][|s[i..]| - t..] == s[|s| - t..];
    assert AllSpace(s[..i]) && AllSpace(s[|s| - t..]);
    if i == |s| {
      assert s[..i] == s;
    } else {
      assert s[i] == s[i..][0];
      assert !IsJsSpace(s[i]);
      assert r[0] == s[i];
      assert !AllSpace(s);
      assert r[|r| - 1] == s[i..][|s[i..]| - t - 1];
    }
  }

  /** Trimming twice changes nothing more than trimming once. */
  lemma TrimIdempotent(s: string)
    ensures Trim(Trim(s)) == Trim(s)
  {
    var r := Trim(s);
    TrimSpec(s);
    if r != [] {
      assert LeadingSpace(r) == 0;
      assert r[0..] == r;
      assert TrailingSpace(r) == 0;
    }
  }

  /** `c.charCodeAt(0)` for a one-code-point string `c`, an element of
      `[...name]`: the code point itself when it fits in one UTF-16 unit,
      otherwise its high surrogate. */
  function FirstCodeUnit(c: char): (u: nat)
    ensures u < 0x10000
    ensures c as int < 0x10000 <==> u == c as int
    ensures c as int >= 0x10000 ==> 0xD800 <= u < 0xDC00
  {
    if c as int < 0x10000 then c as int else 0xD800 + (c as int - 0x10000) / 0x400
  }

  /** `[...s].reduce((acc, ch) => acc + ch.charCodeAt(0), 0)`. */
  function CharCodeSum(s: string): nat
    decreases |s|
  {
    if |s| == 0 then 0 else CharCodeSum(s[..|s| - 1]) + FirstCodeUnit(s[|s| - 1])
  }

  /** The sum over a concatenation is the sum of the sums. */
  lemma {:induction false} CharCodeSumConcat(s: string, t: string)
    ensures CharCodeSum(s + t) == CharCodeSum(s) + CharCodeSum(t)
    decreases |t|
  {
    if |t| == 0 {
      assert s + t == s;
    } else {
      CharCodeSumConcat(s, t[..|t| - 1]);
      assert (s + t)[..|s + t| - 1] == s + t[..|t| - 1];
    }
  }

  function DigitChar(d: int): (c: char)
    requires 0 <= d <= 9
    ensures '0' <= c <= '9' && c as int - '0' as int == d
  {
    ('0' as int + d) as char
  }

  /** The decimal digits of `n` with no leading zero, as `String(n)` writes them. */
  function NatToDecimal(n: nat): (s: string)
    ensures |s| >= 1 && forall i | 0 <= i < |s| :: '0' <= s[i] <= '9'
    ensures |s| > 1 ==> s[0] != '0'
    decreases n
  {
    if n < 10 then [DigitChar(n)] else NatToDecimal(n / 10) + [DigitChar(n % 10)]
  }

  /** `${y}` for an integral number `y`: a minus sign before a negative value. */
  function IntToDecimal(y: int): (s: string)
    ensures |s| >= 1 && '_' !in s
  {
    if y < 0 then "-" + NatToDecimal(-y) else NatToDecimal(y)
  }

  /** The value of a string of decimal digits, read left to right. */
  function DigitsValue(s: string): int
    decreases |s|
  {
    if |s| == 0 then 0 else 10 * DigitsValue(s[..|s| - 1]) + (s[|s| - 1] as int - '0' as int)
  }

  /** Reads back what `IntToDecimal` writes. */
  function ParseDecimal(s: string): int
  {
    if |s| > 0 && s[0] == '-' then -DigitsValue(s[1..]) else DigitsValue(s)
  }

  lemma {:induction false} NatDecimalRoundTrip(n: nat)
    ensures DigitsValue(NatToDecimal(n)) == n
    decreases n
  {
    if n >= 10 {
      NatDecimalRoundTrip(n / 10);
      var s := NatToDecimal(n);
      assert s[..|s| - 1] == NatToDecimal(n / 10);
    }
  }

  /** The decimal text of a year reads back as that year. */
  lemma IntDecimalRoundTrip(y: int)
    ensures ParseDecimal(IntToDecimal(y)) == y
  {
    if y < 0 {
      NatDecimalRoundTrip(-y);
      assert IntToDecimal(y)[1..] == NatToDecimal(-y);
    } else {
      NatDecimalRoundTrip(y);
    }
  }

  /** Distinct years never share a decimal text. */
  lemma IntToDecimalInjective(y: int, z: int)
    ensures IntToDecimal(y) == IntToDecimal(z) <==> y == z
  {
    IntDecimalRoundTrip(y);
    IntDecimalRoundTrip(z);
  }
}
