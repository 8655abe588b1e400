/** The JavaScript number operations the beam-table code relies on, stated over
    exact reals and unbounded integers: truncated `%`, `Math.round`, `toFixed`,
    `Math.pow` on integers, and decimal / hexadecimal rendering of integers. */
module JsNumber {

  // ---------------------------------------------------------------------------
  // Truncated remainder and the wrap into [0, p)
  // ---------------------------------------------------------------------------

  /** Truncation toward zero (the quotient JS uses inside `%`). */
  function Trunc(x: real): (r: int)
    ensures x >= 0.0 ==> r as real <= x < r as real + 1.0
    ensures x < 0.0 ==> r as real - 1.0 < x <= r as real
  {
    if x >= 0.0 then x.Floor else -((-x).Floor)
  }

  /** JS `x % p` for a positive divisor: the remainder keeps the sign of `x`. */
  function JsMod(x: real, p: real): (r: real)
    requires p > 0.0
    ensures x >= 0.0 ==> 0.0 <= r < p
    ensures x < 0.0 ==> -p < r <= 0.0
  {
    var t := Trunc(x / p);
    TruncRemainderBounds(x, p, t, x - p * (t as real));
    x - p * t as real
  }

  lemma TruncRemainderBounds(x: real, p: real, t: int, r: real)
    requires p > 0.0 && t == Trunc(x / p) && r == x - p * (t as real)
    ensures x >= 0.0 ==> 0.0 <= r < p
    ensures x < 0.0 ==> -p < r <= 0.0
  {
    var q := x / p;
    var a := q - t as real;
    assert q * p == x;
    QuotientSign(x, p);
    ScaleFraction(a, p, r);
  }

  /** Scaling a fraction of one by a positive p gives a fraction of p. */
  lemma ScaleFraction(a: real, p: real, m: real)
    requires p > 0.0 && m == a * p
    ensures 0.0 <= a < 1.0 ==> 0.0 <= m < p
    ensures -1.0 < a <= 0.0 ==> -p < m <= 0.0
  {
    if 0.0 <= a < 1.0 {
      ScaleUnit(a, p, m);
    } else if -1.0 < a <= 0.0 {
      var b := -a;
      assert b * p == -m;
      ScaleUnit(b, p, -m);
    }
  }

  lemma ScaleUnit(b: real, p: real, m: real)
    requires p > 0.0 && m == b * p
    ensures 0.0 <= b < 1.0 ==> 0.0 <= m < p
  {
  }

  lemma QuotientSign(x: real, p: real)
    requires p > 0.0
    ensures (x / p < 0.0) == (x < 0.0)
  {
  }

  lemma QuotientNegate(x: real, p: real)
    requires p > 0.0
    ensures (-x) / p == -(x / p)
  {
    assert (x / p) * p == x;
    assert (-(x / p)) * p == -x;
  }

  lemma QuotientBelowOne(x: real, p: real)
    requires p > 0.0 && x < p
    ensures x / p < 1.0
  {
  }

  /** The source's two-step wrap `v = x % p; if (v < 0) v += p`. */
  function WrapInto(x: real, p: real): (r: real)
    requires p > 0.0
    ensures 0.0 <= r < p
  {
    var v := JsMod(x, p);
    if v < 0.0 then v + p else v
  }

  /** For a non-negative dividend the truncated remainder is the floored one. */
  lemma JsModNonNegative(x: real, p: real)
    requires p > 0.0 && x >= 0.0
    ensures JsMod(x, p) == x - p * (x / p).Floor as real
  {
  }

  /** The two-step wrap equals the floored (Euclidean) remainder for every dividend:
      the result differs from `x` by a whole number of periods. */
  lemma {:induction false} WrapIntoIsFloorMod(x: real, p: real)
    requires p > 0.0
    ensures WrapInto(x, p) == x - p * (x / p).Floor as real
  {
    var q := x / p;
    assert q * p == x;
    if x < 0.0 {
      var f := q.Floor;
      var m := (-q).Floor;
      assert Trunc(q) == -m;
      if q == f as real {
        assert -q == (-f) as real;
        assert m == -f;
        assert JsMod(x, p) == x - p * f as real == 0.0;
      } else {
        assert f as real < q < f as real + 1.0;
        assert (-f - 1) as real < -q < (-f) as real;
        assert m == -f - 1;
        assert JsMod(x, p) == x - p * (f + 1) as real;
        assert (f as real + 1.0) * p > q * p;
      }
    }
  }

  /** A value already inside [0, p) is left alone by the wrap. */
  lemma WrapIntoIdentity(x: real, p: real)
    requires p > 0.0 && 0.0 <= x < p
    ensures WrapInto(x, p) == x
  {
    var q := x / p;
    assert q * p == x;
    QuotientSign(x, p);
    QuotientBelowOne(x, p);
    assert q.Floor == 0;
  }

  /** A dividend of magnitude below p is its own truncated remainder, whatever
      its sign: `-30 % 360` is -30, not 330. */
  lemma JsModIdentity(x: real, p: real)
    requires p > 0.0 && -p < x < p
    ensures JsMod(x, p) == x
  {
    var q := x / p;
    assert q * p == x;
    QuotientSign(x, p);
    if x >= 0.0 {
      QuotientBelowOne(x, p);
    } else {
      QuotientBelowOne(-x, p);
      QuotientNegate(x, p);
      assert 0.0 < -q < 1.0;
    }
    assert Trunc(q) == 0;
  }

  // ---------------------------------------------------------------------------
  // Math.round and Number(x.toFixed(d))
  // ---------------------------------------------------------------------------

  /** JS `Math.round`: the nearest integer, halves rounded up. */
  function JsRound(x: real): (r: int)
    ensures x - 0.5 < r as real <= x + 0.5
  {
    (x + 0.5).Floor
  }

  /** `Math.round` is monotone and fixes the integers. */
  lemma JsRoundMonotone(x: real, y: real)
    requires x <= y
    ensures JsRound(x) <= JsRound(y)
  {
  }

  lemma JsRoundOfInt(n: int)
    ensures JsRound(n as real) == n
  {
  }

  function Pow10(d: nat): (r: nat)
    ensures r >= 1
  {
    if d == 0 then 1 else 10 * Pow10(d - 1)
  }

  /** `Math.pow(2, n)` for a natural exponent. */
  function Pow2(n: nat): (r: nat)
    ensures r >= 1
  {
    if n == 0 then 1 else 2 * Pow2(n - 1)
  }

  /** `Number(x.toFixed(digits))`: the nearest multiple of 10^-digits, ties away
      from zero (toFixed rounds the magnitude and keeps the sign). */
  function ToFixed(x: real, digits: nat): (r: real)
    ensures x >= 0.0 ==> r >= 0.0
    ensures x <= 0.0 ==> r <= 0.0
    ensures x - 0.5 / Pow10(digits) as real <= r <= x + 0.5 / Pow10(digits) as real
  {
    var s := Pow10(digits) as real;
    var a := if x >= 0.0 then x else -x;
    var n := JsRound(a * s);
    ScaledBack(a, s, n);
    if x >= 0.0 then n as real / s else -(n as real / s)
  }

  /** An integer within half a unit of `a * s`, scaled back by `s`, lies within
      `0.5 / s` of `a`. */
  lemma ScaledBack(a: real, s: real, n: int)
    requires a >= 0.0 && s >= 1.0
    requires a * s - 0.5 < n as real <= a * s + 0.5
    ensures n as real / s >= 0.0
    ensures a - 0.5 / s <= n as real / s <= a + 0.5 / s
  {
    var m := n as real / s;
    var h := 0.5 / s;
    assert m * s == n as real;
    assert h * s == 0.5;
    assert (m - a) * s == n as real - a * s;
    assert (m - a + h) * s == (m - a) * s + 0.5;
    assert (a + h - m) * s == 0.5 - (m - a) * s;
  }

  /** Rounding for display keeps zero at zero and preserves the order of values. */
  lemma ToFixedZero(digits: nat)
    ensures ToFixed(0.0, digits) == 0.0
  {
  }

  // ---------------------------------------------------------------------------
  // Decimal rendering: String(n) for integers
  // ---------------------------------------------------------------------------

  predicate IsDigit(c: char) { '0' <= c <= '9' }

  function DigitChar(d: nat): (c: char)
    requires d < 10
    ensures IsDigit(c) && (c as int) - ('0' as int) == d
  {
    ['0', '1', '2', '3', '4', '5', '6', '7', '8', '9'][d]
  }

  predicate AllDigits(s: string) { forall i :: 0 <= i < |s| ==> IsDigit(s[i]) }

  /** The decimal digits of a natural number, most significant first, no leading zeros. */
  function NatToDecimal(n: nat): (s: string)
    ensures |s| >= 1 && AllDigits(s)
    ensures s[0] == '0' <==> n == 0
    decreases n
  {
    if n < 10 then [DigitChar(n)] else NatToDecimal(n / 10) + [DigitChar(n % 10)]
  }

  /** `String(n)` for an integer: a minus sign, then the digits of |n|. */
  function IntToDecimal(n: int): (s: string)
    ensures |s| >= 1
    ensures n >= 0 <==> s[0] != '-'
  {
    if n < 0 then "-" + NatToDecimal(-n) else NatToDecimal(n)
  }

  // ---------------------------------------------------------------------------
  // Hexadecimal rendering: code.toString(16).toUpperCase().padStart(2, '0')
  // ---------------------------------------------------------------------------

  predicate IsUpperHexDigit(c: char) { '0' <= c <= '9' || 'A' <= c <= 'F' }

  predicate AllUpperHex(s: string) { forall i :: 0 <= i < |s| ==> IsUpperHexDigit(s[i]) }

  function HexDigitChar(d: nat): (c: char)
    requires d < 16
    ensures IsUpperHexDigit(c)
  {
    ['0', '1', '2', '3', '4', '5', '6', '7', '8', '9', 'A', 'B', 'C', 'D', 'E', 'F'][d]
  }

  function HexDigitValue(c: char): (d: nat)
    requires IsUpperHexDigit(c)
    ensures d < 16
  {
    if c <= '9' then (c as int) - ('0' as int) else (c as int) - ('A' as int) + 10
  }

  /** Upper-case base-16 digits of a natural number, most significant first. */
  function NatToHex(n: nat): (s: string)
    ensures |s| >= 1 && AllUpperHex(s)
    ensures s[0] == '0' <==> n == 0
    decreases n
  {
    if n < 16 then [HexDigitChar(n)] else NatToHex(n / 16) + [HexDigitChar(n % 16)]
  }

  /** The number a string of upper-case hexadecimal digits denotes. */
  function HexValue(s: string): nat
    requires AllUpperHex(s)
  {
    if s == [] then 0 else HexValue(s[..|s| - 1]) * 16 + HexDigitValue(s[|s| - 1])
  }

  /** `s.padStart(width, pad)` with a one-character pad. */
  function PadStart(s: string, width: nat, pad: char): (r: string)
    ensures |r| == if |s| >= width then |s| else width
    ensures r[|r| - |s|..] == s
    ensures forall i :: 0 <= i < |r| - |s| ==> r[i] == pad
  {
    if |s| >= width then s else seq(width - |s|, _ => pad) + s
  }

  /** `code.toString(16).toUpperCase()`: base-16 digits with a minus sign for negatives. */
  function IntToHex(code: int): string
  {
    if code < 0 then "-" + NatToHex(-code) else NatToHex(code)
  }

  /** The `<name>_Code_Hex` cell: "0x", then the upper-case hex digits of the code
      padded with zeros to at least two characters. */
  function CodeHex(code: int): string
  {
    "0x" + PadStart(IntToHex(code), 2, '0')
  }

  lemma {:induction false} HexDigitRoundTrip(d: nat)
    requires d < 16
    ensures HexDigitValue(HexDigitChar(d)) == d
  {
  }

  /** Reading the digits NatToHex writes gives the number back. */
  lemma {:induction false} HexRoundTrip(n: nat)
    ensures HexValue(NatToHex(n)) == n
    decreases n
  {
    var s := NatToHex(n);
    if n < 16 {
      assert s[..0] == [];
      HexDigitRoundTrip(n);
    } else {
      HexRoundTrip(n / 16);
      assert s[..|s| - 1] == NatToHex(n / 16);
      HexDigitRoundTrip(n % 16);
    }
  }

  /** Leading zeros do not change the value of a hex digit string. */
  lemma {:induction false} HexLeadingZeros(z: string, s: string)
    requires forall i :: 0 <= i < |z| ==> z[i] == '0'
    requires AllUpperHex(s)
    ensures AllUpperHex(z + s)
    ensures HexValue(z + s) == HexValue(s)
    decreases |s|
  {
    var t := z + s;
    if s == [] {
      assert t == z;
      HexAllZeros(z);
    } else {
      assert t[..|t| - 1] == z + s[..|s| - 1];
      HexLeadingZeros(z, s[..|s| - 1]);
    }
  }

  lemma {:induction false} HexAllZeros(z: string)
    requires forall i :: 0 <= i < |z| ==> z[i] == '0'
    ensures AllUpperHex(z) && HexValue(z) == 0
    decreases |z|
  {
    if z != [] {
      HexAllZeros(z[..|z| - 1]);
    }
  }

  /** The hex cell of a non-negative code is "0x" followed by at least two upper-case
      hex digits, exactly as many as the code needs beyond that (nothing is cut), and
      reading those digits back yields the code. */
  lemma CodeHexRoundTrip(code: int)
    requires code >= 0
    ensures |CodeHex(code)| >= 4 && CodeHex(code)[..2] == "0x"
    ensures AllUpperHex(CodeHex(code)[2..])
    ensures |CodeHex(code)| - 2 == (if |NatToHex(code)| >= 2 then |NatToHex(code)| else 2)
    ensures HexValue(CodeHex(code)[2..]) == code
  {
    var d := NatToHex(code);
    var h := CodeHex(code);
    var p := PadStart(d, 2, '0');
    assert h[2..] == p;
    var z := p[..|p| - |d|];
    assert p == z + d;
    HexLeadingZeros(z, d);
    HexRoundTrip(code);
  }

  /** The examples of the hex column: 10, 255 and 300. */
  lemma CodeHexTen()
    ensures CodeHex(10) == "0x0A"
  {
    assert NatToHex(10) == [HexDigitChar(10)] == "A";
    assert PadStart("A", 2, '0') == "0A";
  }

  lemma CodeHexTwoFiftyFive()
    ensures CodeHex(255) == "0xFF"
  {
    assert NatToHex(15) == [HexDigitChar(15)] == "F";
    assert NatToHex(255) == NatToHex(15) + [HexDigitChar(15)] == "FF";
  }

  lemma CodeHexThreeHundred()
    ensures CodeHex(300) == "0x12C"
  {
    assert NatToHex(1) == [HexDigitChar(1)] == "1";
    assert NatToHex(18) == NatToHex(1) + [HexDigitChar(2)] == "12";
    assert NatToHex(300) == NatToHex(18) + [HexDigitChar(12)] == "12C";
  }
}
