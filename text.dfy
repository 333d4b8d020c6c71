/** The few string operations the integration performs on numbers: Python's
    `str(n)` for building names and keys, `int(s)` and `int(s, 16)` for
    parsing user input, `format(n, "02X")` for showing addresses, and
    `s.lstrip("v")` for release tags. */
module Text {
  import opened Json

  // ---------------------------------------------------------------------------
  // Decimal digits

  predicate IsDigit(c: char) { '0' <= c <= '9' }

  predicate AllDigits(s: string) {
    forall i :: 0 <= i < |s| ==> IsDigit(s[i])
  }

  function DigitChar(d: int): char
    requires 0 <= d < 10
  {
    (48 + d) as char
  }

  function DigitValue(c: char): int
    requires IsDigit(c)
  {
    c as int - 48
  }

  /** Python's `str(n)` for a non-negative `n`: no leading zeros. */
  function NatDecimal(n: nat): string
    decreases n
  {
    if n < 10 then [DigitChar(n)] else NatDecimal(n / 10) + [DigitChar(n % 10)]
  }

  /** Python's `str(n)` for any integer. */
  function Decimal(n: int): string {
    if n < 0 then "-" + NatDecimal(-n) else NatDecimal(n)
  }

  /** The value of a string of decimal digits, read most significant first. */
  function DecimalValue(s: string): nat
    requires AllDigits(s)
    decreases |s|
  {
    if s == [] then 0 else 10 * DecimalValue(s[..|s| - 1]) + DigitValue(s[|s| - 1])
  }

  /** `str(n)` is a non-empty run of digits that `int()` reads back as `n`. */
  lemma {:induction false} NatDecimalRoundTrip(n: nat)
    ensures |NatDecimal(n)| > 0 && AllDigits(NatDecimal(n))
    ensures DecimalValue(NatDecimal(n)) == n
    decreases n
  {
    var s := NatDecimal(n);
    if n >= 10 {
      NatDecimalRoundTrip(n / 10);
      assert s[..|s| - 1] == NatDecimal(n / 10);
    }
  }

  /** `str(n)` is non-empty and starts with '-' exactly for negative `n`. */
  lemma DecimalSign(n: int)
    ensures |Decimal(n)| > 0
    ensures Decimal(n)[0] == '-' <==> n < 0
  {
    NatDecimalRoundTrip(if n < 0 then -n else n);
    if n >= 0 {
      assert IsDigit(Decimal(n)[0]);
    }
  }

  /** Distinct numbers render to distinct decimal strings. */
  lemma DecimalInjective(a: int, b: int)
    requires Decimal(a) == Decimal(b)
    ensures a == b
  {
    DecimalSign(a);
    DecimalSign(b);
    if a < 0 {
      NatDecimalRoundTrip(-a);
      NatDecimalRoundTrip(-b);
      assert NatDecimal(-a) == Decimal(a)[1..];
    } else {
      NatDecimalRoundTrip(a);
      NatDecimalRoundTrip(b);
    }
  }

  /** Two texts built as `prefix + str(n)` around the same prefix are equal only
      for equal numbers. */
  lemma PrefixedDecimalInjective(prefix: string, a: int, b: int)
    requires prefix + Decimal(a) == prefix + Decimal(b)
    ensures a == b
  {
    var x, y := prefix + Decimal(a), prefix + Decimal(b);
    assert Decimal(a) == x[|prefix|..];
    assert Decimal(b) == y[|prefix|..];
    DecimalInjective(a, b);
  }

  // ---------------------------------------------------------------------------
  // Hexadecimal digits

  predicate IsHexDigit(c: char) {
    '0' <= c <= '9' || 'a' <= c <= 'f' || 'A' <= c <= 'F'
  }

  predicate AllHex(s: string) {
    forall i :: 0 <= i < |s| ==> IsHexDigit(s[i])
  }

  function HexDigitValue(c: char): int
    requires IsHexDigit(c)
  {
    if '0' <= c <= '9' then c as int - 48
    else if 'a' <= c <= 'f' then c as int - 87
    else c as int - 55
  }

  /** The upper-case digit that `format(n, "X")` writes for `0 <= d < 16`. */
  function UpperHexDigit(d: int): char
    requires 0 <= d < 16
  {
    if d < 10 then (48 + d) as char else (55 + d) as char
  }

  function HexValue(s: string): nat
    requires AllHex(s)
    decreases |s|
  {
    if s == [] then 0 else 16 * HexValue(s[..|s| - 1]) + HexDigitValue(s[|s| - 1])
  }

  function NatHex(n: nat): string
    decreases n
  {
    if n < 16 then [UpperHexDigit(n)] else NatHex(n / 16) + [UpperHexDigit(n % 16)]
  }

  /** Python's `format(n, "02X")`: upper-case hex, zero-padded to two digits,
      a leading `-` for negative numbers counting towards the width. */
  function Hex02(n: int): string {
    if n < 0 then "-" + NatHex(-n)
    else if n < 16 then "0" + NatHex(n)
    else NatHex(n)
  }

  lemma {:induction false} NatHexRoundTrip(n: nat)
    ensures |NatHex(n)| > 0 && AllHex(NatHex(n))
    ensures HexValue(NatHex(n)) == n
    decreases n
  {
    var s := NatHex(n);
    if n >= 16 {
      NatHexRoundTrip(n / 16);
      assert s[..|s| - 1] == NatHex(n / 16);
    }
  }

  /** The padded rendering of a non-negative number reads back as that number. */
  lemma Hex02RoundTrip(n: nat)
    ensures |Hex02(n)| >= 2 && AllHex(Hex02(n))
    ensures HexValue(Hex02(n)) == n
  {
    NatHexRoundTrip(n);
    if n < 16 {
      var s := Hex02(n);
      assert s[..|s| - 1] == "0";
      assert HexValue("0") == 0;
    }
  }

  // ---------------------------------------------------------------------------
  // lstrip

  /** Python's `s.lstrip("v")`: drops every leading 'v'. */
  function StripLeadingV(s: string): (r: string)
    ensures |r| <= |s| && r == s[|s| - |r|..]
    ensures r == [] || r[0] != 'v'
    ensures forall i :: 0 <= i < |s| - |r| ==> s[i] == 'v'
    decreases |s|
  {
    if |s| > 0 && s[0] == 'v' then StripLeadingV(s[1..]) else s
  }

  /** Stripping twice strips nothing more. */
  lemma StripLeadingVIdempotent(s: string)
    ensures StripLeadingV(StripLeadingV(s)) == StripLeadingV(s)
  {
  }
}
