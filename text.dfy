/** The string operations the table ingestion and export rely on: `split` and
    `join` on a one-character separator, `trim`, `toLowerCase`, and the numeric
    readers `parseInt` and `parseFloat`. */
module Text {
  import opened Types
  import opened JsNumber

  // ---------------------------------------------------------------------------
  // split / join
  // ---------------------------------------------------------------------------

  /** `s.split(sep)`: the pieces between separators; never empty, and no piece
      contains the separator. No quoting of any kind is recognised. */
  function Split(s: string, sep: char): (parts: seq<string>)
    ensures |parts| >= 1
    ensures forall i :: 0 <= i < |parts| ==> sep !in parts[i]
    decreases |s|
  {
    if s == [] then [""]
    else
      var rest := Split(s[1..], sep);
      if s[0] == sep then [""] + rest
      else [[s[0]] + rest[0]] + rest[1..]
  }

  /** `parts.join(sep)`. */
  function Join(parts: seq<string>, sep: char): string
    decreases |parts|
  {
    if |parts| == 0 then ""
    else if |parts| == 1 then parts[0]
    else parts[0] + [sep] + Join(parts[1..], sep)
  }

  /** Joining the pieces of a split gives the original text back. */
  lemma {:induction false} JoinSplit(s: string, sep: char)
    ensures Join(Split(s, sep), sep) == s
    decreases |s|
  {
    if s != [] {
      var rest := Split(s[1..], sep);
      JoinSplit(s[1..], sep);
      if s[0] == sep {
        assert Split(s, sep) == [""] + rest;
        assert s == [sep] + s[1..];
      } else {
        var parts := Split(s, sep);
        assert parts == [[s[0]] + rest[0]] + rest[1..];
        if |rest| == 1 {
          assert s == [s[0]] + rest[0];
        } else {
          assert rest == [rest[0]] + rest[1..];
          assert Join(rest, sep) == rest[0] + [sep] + Join(rest[1..], sep);
          assert parts[1..] == rest[1..];
          assert s == [s[0]] + s[1..];
        }
      }
    }
  }

  /** A text without the separator splits into itself. */
  lemma {:induction false} SplitNoSeparator(s: string, sep: char)
    requires sep !in s
    ensures Split(s, sep) == [s]
    decreases |s|
  {
    if s != [] {
      assert sep !in s[1..];
      SplitNoSeparator(s[1..], sep);
      assert s == [s[0]] + s[1..];
    }
  }

  /** Splitting `a + sep + b`, where `a` has no separator, peels `a` off the front. */
  lemma {:induction false} SplitAtSeparator(a: string, b: string, sep: char)
    requires sep !in a
    ensures Split(a + [sep] + b, sep) == [a] + Split(b, sep)
    decreases |a|
  {
    var s := a + [sep] + b;
    if a == [] {
      assert s[1..] == b;
    } else {
      assert s[1..] == a[1..] + [sep] + b;
      assert sep !in a[1..];
      SplitAtSeparator(a[1..], b, sep);
      assert a == [a[0]] + a[1..];
    }
  }

  /** Splitting a join of separator-free pieces gives the pieces back. */
  lemma {:induction false} SplitJoin(parts: seq<string>, sep: char)
    requires |parts| >= 1
    requires forall i :: 0 <= i < |parts| ==> sep !in parts[i]
    ensures Split(Join(parts, sep), sep) == parts
    decreases |parts|
  {
    if |parts| == 1 {
      SplitNoSeparator(parts[0], sep);
    } else {
      SplitJoin(parts[1..], sep);
      SplitAtSeparator(parts[0], Join(parts[1..], sep), sep);
      assert parts == [parts[0]] + parts[1..];
    }
  }

  /** A character that is neither the separator nor in any piece is not in the join. */
  lemma {:induction false} JoinAvoids(parts: seq<string>, sep: char, c: char)
    requires c != sep
    requires forall i :: 0 <= i < |parts| ==> c !in parts[i]
    ensures c !in Join(parts, sep)
    decreases |parts|
  {
    if |parts| > 1 {
      JoinAvoids(parts[1..], sep, c);
    }
  }

  // ---------------------------------------------------------------------------
  // trim / toLowerCase
  // ---------------------------------------------------------------------------

  /** The characters `String.prototype.trim` removes: white space and line terminators. */
  predicate IsWhitespace(c: char)
  {
    || c == ' ' || c == '\t' || c == '\n' || c == '\r'
    || c == '\U{000B}' || c == '\U{000C}' || c == '\U{00A0}' || c == '\U{FEFF}'
    || c == '\U{1680}' || ('\U{2000}' <= c <= '\U{200A}')
    || c == '\U{2028}' || c == '\U{2029}' || c == '\U{202F}' || c == '\U{205F}' || c == '\U{3000}'
  }

  /** Drops the leading white space. */
  function TrimStart(s: string): (r: string)
    ensures |r| <= |s| && r == s[|s| - |r|..]
    ensures r == [] || !IsWhitespace(r[0])
    decreases |s|
  {
    if s != [] && IsWhitespace(s[0]) then TrimStart(s[1..]) else s
  }

  /** Everything `TrimStart` drops is white space. */
  lemma {:induction false} TrimStartDropsWhitespace(s: string)
    ensures forall i :: 0 <= i < |s| - |TrimStart(s)| ==> IsWhitespace(s[i])
    decreases |s|
  {
    if s != [] && IsWhitespace(s[0]) {
      TrimStartDropsWhitespace(s[1..]);
      forall i | 0 < i < |s| - |TrimStart(s)| ensures IsWhitespace(s[i]) {
        assert s[i] == s[1..][i - 1];
      }
    }
  }

  /** Drops the trailing white space. */
  function TrimEnd(s: string): (r: string)
    ensures |r| <= |s| && r == s[..|r|]
    ensures forall i :: |r| <= i < |s| ==> IsWhitespace(s[i])
    ensures r == [] || !IsWhitespace(r[|r| - 1])
    decreases |s|
  {
    if s != [] && IsWhitespace(s[|s| - 1]) then TrimEnd(s[..|s| - 1]) else s
  }

  /** `s.trim()`. */
  function Trim(s: string): string
  {
    TrimEnd(TrimStart(s))
  }

  /** Trimming a text that neither starts nor ends with white space changes nothing. */
  lemma TrimIdentity(s: string)
    requires s == [] || (!IsWhitespace(s[0]) && !IsWhitespace(s[|s| - 1]))
    ensures Trim(s) == s
  {
  }

  function LowerChar(c: char): char
  {
    if 'A' <= c <= 'Z' then (c as int + 32) as char else c
  }

  /** `s.toLowerCase()` on the ASCII letters. */
  function ToLower(s: string): (r: string)
    ensures |r| == |s|
  {
    seq(|s|, i requires 0 <= i < |s| => LowerChar(s[i]))
  }

  // ---------------------------------------------------------------------------
  // parseInt / parseFloat
  // ---------------------------------------------------------------------------

  /** The longest prefix of `s` made of decimal digits. */
  function DigitPrefix(s: string): (d: string)
    ensures |d| <= |s| && d == s[..|d|] && AllDigits(d)
    ensures |d| < |s| ==> !IsDigit(s[|d|])
    decreases |s|
  {
    if s != [] && IsDigit(s[0]) then [s[0]] + DigitPrefix(s[1..]) else []
  }

  /** The number a string of decimal digits denotes. */
  function DecimalValue(d: string): nat
    requires AllDigits(d)
  {
    if d == [] then 0 else DecimalValue(d[..|d| - 1]) * 10 + ((d[|d| - 1] as int) - ('0' as int))
  }

  predicate IsHexDigit(c: char) { '0' <= c <= '9' || 'a' <= c <= 'f' || 'A' <= c <= 'F' }

  function HexPrefix(s: string): (d: string)
    ensures |d| <= |s| && d == s[..|d|]
    ensures forall i :: 0 <= i < |d| ==> IsHexDigit(d[i])
    decreases |s|
  {
    if s != [] && IsHexDigit(s[0]) then [s[0]] + HexPrefix(s[1..]) else []
  }

  function HexCharValue(c: char): nat
    requires IsHexDigit(c)
  {
    if c <= '9' then (c as int) - ('0' as int)
    else if c <= 'F' then (c as int) - ('A' as int) + 10
    else (c as int) - ('a' as int) + 10
  }

  function HexStringValue(d: string): nat
    requires forall i :: 0 <= i < |d| ==> IsHexDigit(d[i])
  {
    if d == [] then 0 else HexStringValue(d[..|d| - 1]) * 16 + HexCharValue(d[|d| - 1])
  }

  /** The text after an optional leading sign. */
  function Unsigned(t: string): string
  {
    if |t| > 0 && (t[0] == '-' || t[0] == '+') then t[1..] else t
  }

  function ApplySign(t: string, v: int): int
  {
    if |t| > 0 && t[0] == '-' then -v else v
  }

  /** `parseInt(s)` without a radix: leading white space and a sign are skipped, a
      "0x"/"0X" prefix selects base 16, and the longest digit prefix is read;
      `None` stands for NaN (no digit at all). */
  function ParseInt(s: string): Option<int>
  {
    var t := TrimStart(s);
    match Magnitude(Unsigned(t))
    case None => None
    case Some(v) => Some(ApplySign(t, v))
  }

  /** The magnitude `parseInt` reads after the sign: hexadecimal digits after a
      "0x"/"0X" prefix, otherwise the longest decimal digit prefix. */
  function Magnitude(u: string): Option<nat>
  {
    if |u| >= 2 && u[0] == '0' && (u[1] == 'x' || u[1] == 'X') then
      var h := HexPrefix(u[2..]);
      if h == [] then None else Some(HexStringValue(h))
    else
      var d := DigitPrefix(u);
      if d == [] then None else Some(DecimalValue(d))
  }

  /** `parseFloat(s)`: leading white space and a sign are skipped, then the longest
      prefix of the form digits [ "." digits ] [ ("e"|"E") [sign] digits ] is read,
      with at least one digit before or after the point; `None` stands for NaN. */
  function ParseFloat(s: string): Option<real>
  {
    var t := TrimStart(s);
    var u := Unsigned(t);
    var ip := DigitPrefix(u);
    var rest := u[|ip|..];
    var fp := if |rest| > 0 && rest[0] == '.' then DigitPrefix(rest[1..]) else [];
    if ip == [] && fp == [] then None
    else
      var afterPoint := if |rest| > 0 && rest[0] == '.' then rest[1 + |fp|..] else rest;
      var mantissa := DecimalValue(ip) as real + DecimalValue(fp) as real / Pow10(|fp|) as real;
      var e := ExponentOf(afterPoint);
      var magnitude := if e >= 0 then mantissa * Pow10(e) as real else mantissa / Pow10(-e) as real;
      Some(if |t| > 0 && t[0] == '-' then -magnitude else magnitude)
  }

  /** The exponent part of a decimal literal, 0 when it is absent or has no digits. */
  function ExponentOf(s: string): int
  {
    if |s| > 0 && (s[0] == 'e' || s[0] == 'E') then
      var u := Unsigned(s[1..]);
      var d := DigitPrefix(u);
      if d == [] then 0 else ApplySign(s[1..], DecimalValue(d))
    else 0
  }

  // ---------------------------------------------------------------------------
  // Round trips between the decimal writer and the readers
  // ---------------------------------------------------------------------------

  lemma {:induction false} DecimalRoundTrip(n: nat)
    ensures DecimalValue(NatToDecimal(n)) == n
    decreases n
  {
    var s := NatToDecimal(n);
    if n >= 10 {
      DecimalRoundTrip(n / 10);
      assert s[..|s| - 1] == NatToDecimal(n / 10);
    } else {
      assert s[..0] == [];
    }
  }

  lemma {:induction false} DigitPrefixOfDigits(d: string)
    requires AllDigits(d)
    ensures DigitPrefix(d) == d
    decreases |d|
  {
    if d != [] {
      DigitPrefixOfDigits(d[1..]);
      assert d == [d[0]] + d[1..];
    }
  }

  /** `parseInt` reads back every integer `String(n)` writes. */
  lemma ParseIntRoundTrip(n: int)
    ensures ParseInt(IntToDecimal(n)) == Some(n)
  {
    var s := IntToDecimal(n);
    var m := if n < 0 then -n else n;
    var d := NatToDecimal(m);
    assert !IsWhitespace(s[0]);
    assert TrimStart(s) == s;
    assert Unsigned(s) == d;
    assert !(|d| >= 2 && d[0] == '0');
    DigitPrefixOfDigits(d);
    DecimalRoundTrip(m);
    assert DigitPrefix(d) == d && DecimalValue(d) == m;
    assert ApplySign(s, m) == n;
  }

  /** The digit prefix of digits followed by anything but a digit is those digits. */
  lemma {:induction false} DigitPrefixStops(d: string, rest: string)
    requires AllDigits(d) && (rest == [] || !IsDigit(rest[0]))
    ensures DigitPrefix(d + rest) == d
    decreases |d|
  {
    if d == [] {
      assert d + rest == rest;
    } else {
      DigitPrefixStops(d[1..], rest);
      assert d + rest == [d[0]] + (d[1..] + rest);
    }
  }

  /** `parseInt` reads digits back from the front of a longer text, as long as what
      follows is not a digit, nor the x of a hexadecimal prefix after a lone digit. */
  lemma ParseDigitsBefore(d: string, rest: string)
    requires d != [] && AllDigits(d)
    requires rest == [] || (!IsDigit(rest[0]) && (|d| >= 2 || (rest[0] != 'x' && rest[0] != 'X')))
    ensures Magnitude(d + rest) == Some(DecimalValue(d))
    ensures ParseInt(d + rest) == Some(DecimalValue(d))
  {
    var s := d + rest;
    DigitPrefixStops(d, rest);
    NoHexPrefix(d, rest);
    UnsignedDigits(s);
  }

  /** A text that starts with a digit has no white space and no sign to skip. */
  lemma UnsignedDigits(s: string)
    requires s != [] && IsDigit(s[0])
    ensures TrimStart(s) == s && Unsigned(s) == s
  {
  }

  lemma NoHexPrefix(d: string, rest: string)
    requires d != [] && AllDigits(d)
    requires rest == [] || (|d| >= 2 || (rest[0] != 'x' && rest[0] != 'X'))
    ensures var s := d + rest; s[0] == d[0] && !(|s| >= 2 && (s[1] == 'x' || s[1] == 'X'))
  {
    var s := d + rest;
    if |d| >= 2 {
      assert s[1] == d[1];
    } else if |s| >= 2 {
      assert s[1] == rest[0];
    }
  }

  /** `parseInt` reads back `String(n)` from the front of a longer text, as long as
      what follows is neither a digit nor the x of a hexadecimal prefix. */
  lemma ParseIntBefore(n: int, rest: string)
    requires rest == [] || (!IsDigit(rest[0]) && rest[0] != 'x' && rest[0] != 'X')
    ensures ParseInt(IntToDecimal(n) + rest) == Some(n)
  {
    if n >= 0 {
      assert IntToDecimal(n) == NatToDecimal(n);
      ParseNatBefore(n, rest);
    } else {
      assert IntToDecimal(n) == "-" + NatToDecimal(-n);
      ParseNegativeBefore(-n, rest);
    }
  }

  lemma ParseNatBefore(n: nat, rest: string)
    requires rest == [] || (!IsDigit(rest[0]) && rest[0] != 'x' && rest[0] != 'X')
    ensures ParseInt(NatToDecimal(n) + rest) == Some(n)
  {
    DecimalRoundTrip(n);
    ParseDigitsBefore(NatToDecimal(n), rest);
  }

  lemma ParseNegativeBefore(m: nat, rest: string)
    requires rest == [] || (!IsDigit(rest[0]) && rest[0] != 'x' && rest[0] != 'X')
    ensures ParseInt("-" + NatToDecimal(m) + rest) == Some(-(m as int))
  {
    NatMagnitudeBefore(m, rest);
    NegativeBefore(NatToDecimal(m), rest, m);
  }

  /** The magnitude `parseInt` reads from `String(n)` at the front of a longer text. */
  lemma NatMagnitudeBefore(n: nat, rest: string)
    requires rest == [] || (!IsDigit(rest[0]) && rest[0] != 'x' && rest[0] != 'X')
    ensures Magnitude(NatToDecimal(n) + rest) == Some(n)
  {
    var d := NatToDecimal(n);
    DecimalRoundTrip(n);
    DigitPrefixStops(d, rest);
    NoHexPrefix(d, rest);
  }

  /** A minus sign in front of a magnitude that a longer text starts with. */
  lemma NegativeBefore(d: string, rest: string, v: nat)
    requires Magnitude(d + rest) == Some(v)
    ensures ParseInt("-" + d + rest) == Some(-(v as int))
  {
    var s := "-" + d + rest;
    assert s[1..] == d + rest;
    ParseMinus(s, v);
  }

  /** A minus sign in front of a magnitude negates what `parseInt` reads. */
  lemma ParseMinus(s: string, v: nat)
    requires |s| >= 1 && s[0] == '-' && Magnitude(s[1..]) == Some(v)
    ensures ParseInt(s) == Some(-(v as int))
  {
    assert TrimStart(s) == s;
  }

  /** The value of a digit padded with one zero. */
  lemma PaddedDigitValue(d: string)
    requires |d| == 2 && d[0] == '0' && IsDigit(d[1])
    ensures AllDigits(d) && DecimalValue(d) == (d[1] as int) - ('0' as int)
  {
    assert d[..1][..0] == [];
    assert d[..1][0] == '0';
    assert DecimalValue(d[..1]) == 0;
  }

  /** `parseInt` reads a zero-padded digit "0d" as d, whatever non-digit follows. */
  lemma PaddedDigitBefore(d: string, rest: string, v: int)
    requires |d| == 2 && d[0] == '0' && IsDigit(d[1]) && (d[1] as int) - ('0' as int) == v
    requires rest == [] || !IsDigit(rest[0])
    ensures ParseInt(d + rest) == Some(v)
  {
    PaddedDigitValue(d);
    ParseDigitsValue(d, rest, v);
  }

  /** `ParseDigitsBefore`, with the value of the digits named. */
  lemma ParseDigitsValue(d: string, rest: string, v: int)
    requires d != [] && AllDigits(d) && DecimalValue(d) == v
    requires rest == [] || (!IsDigit(rest[0]) && (|d| >= 2 || (rest[0] != 'x' && rest[0] != 'X')))
    ensures ParseInt(d + rest) == Some(v)
  {
    ParseDigitsBefore(d, rest);
  }
}
