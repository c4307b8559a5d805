/**
 * The two conversions between `int` (Int32) and text the service uses:
 * `int.Parse` / `int.TryParse` with the default `NumberStyles.Integer`
 * (optional surrounding white space, an optional sign, decimal digits, the
 * value within Int32 range), and the decimal formatting of an `int` inside
 * an interpolated string. Interpolation formats with the current culture,
 * which can change only the minus sign of a negative number; the model
 * writes '-'.
 */
module IntText {
  import opened Wrappers
  import opened Text

  const Int32Min: int := -0x8000_0000
  const Int32Max: int := 0x7FFF_FFFF

  predicate IsInt32(n: int) { Int32Min <= n <= Int32Max }

  /** The white space `NumberStyles.AllowLeadingWhite` and `AllowTrailingWhite` admit. */
  predicate IsNumberWhite(c: char) { c == ' ' || ('\t' <= c <= '\r') }

  predicate IsDigit(c: char) { '0' <= c <= '9' }

  predicate AllDigits(s: string) { forall i :: 0 <= i < |s| ==> IsDigit(s[i]) }

  function DigitValue(c: char): (d: nat)
    requires IsDigit(c)
    ensures d < 10
  {
    c as int - '0' as int
  }

  function DigitChar(d: nat): (c: char)
    requires d < 10
    ensures IsDigit(c) && DigitValue(c) == d
  {
    ('0' as int + d) as char
  }

  /** The number a string of decimal digits denotes, most significant digit first. */
  function DigitsValue(s: string): nat
    requires AllDigits(s)
  {
    if s == [] then 0 else DigitsValue(s[..|s| - 1]) * 10 + DigitValue(s[|s| - 1])
  }

  /** The sign, if any, and the rest of the text. */
  function SplitSign(t: string): (bool, string) {
    if |t| > 0 && t[0] == '-' then (true, t[1..])
    else if |t| > 0 && t[0] == '+' then (false, t[1..])
    else (false, t)
  }

  /** `int.TryParse(s, out n)`: `Some(n)` on success; `int.Parse` throws exactly where this is `None`. */
  function ParseInt(s: string): (r: Option<int>)
    ensures r.Some? ==> IsInt32(r.value)
  {
    var t := TrimEndWith(TrimStartWith(s, IsNumberWhite), IsNumberWhite);
    var (negative, digits) := SplitSign(t);
    if digits == [] || !AllDigits(digits) then None
    else
      var n: int := if negative then 0 - DigitsValue(digits) as int else DigitsValue(digits);
      if IsInt32(n) then Some(n) else None
  }

  function NatToString(n: nat): (s: string)
    ensures s != [] && AllDigits(s)
  {
    if n < 10 then [DigitChar(n)] else NatToString(n / 10) + [DigitChar(n % 10)]
  }

  /** The decimal text of `n` as string interpolation writes it: a minus sign for negatives, no leading zeros. */
  function IntToString(n: int): (s: string)
    ensures s != [] && IsDigit(s[|s| - 1])
    ensures forall i :: 0 <= i < |s| ==> IsDigit(s[i]) || (i == 0 && s[i] == '-')
  {
    if n < 0 then "-" + NatToString(-n) else NatToString(n)
  }

  lemma {:induction false} NatToStringValue(n: nat)
    ensures DigitsValue(NatToString(n)) == n
  {
    var s := NatToString(n);
    if n >= 10 {
      NatToStringValue(n / 10);
      assert s[..|s| - 1] == NatToString(n / 10);
    }
  }

  /** Decimal text has no white space at either end for the number parser to skip. */
  lemma IntToStringUntrimmed(n: int)
    ensures TrimStartWith(IntToString(n), IsNumberWhite) == IntToString(n)
    ensures TrimEndWith(IntToString(n), IsNumberWhite) == IntToString(n)
  {
    var s := IntToString(n);
    assert !IsNumberWhite(s[0]);
    assert !IsNumberWhite(s[|s| - 1]);
  }

  /** The sign of the decimal text of `n` and the digits of its magnitude. */
  lemma IntToStringSign(n: int)
    ensures SplitSign(IntToString(n)) == (n < 0, NatToString(if n < 0 then -n else n))
  {
    if n >= 0 {
      var s := NatToString(n);
      assert IsDigit(s[0]);
    }
  }

  /** Parsing reads back every Int32 that formatting writes. */
  lemma ParseIntToString(n: int)
    requires IsInt32(n)
    ensures ParseInt(IntToString(n)) == Some(n)
  {
    var m: nat := if n < 0 then -n else n;
    IntToStringUntrimmed(n);
    IntToStringSign(n);
    NatToStringValue(m);
  }
}
