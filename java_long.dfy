/**
 * Java's 64-bit `long`: its range, Long.toString and Long.parseLong.
 */
module JavaLong {
  import opened Wrappers

  const MIN: int := -0x8000_0000_0000_0000
  const MAX: int := 0x7fff_ffff_ffff_ffff

  type Long = x: int | MIN <= x <= MAX

  predicate IsDigit(c: char)
  {
    '0' <= c <= '9'
  }

  predicate AllDigits(s: string)
  {
    forall i :: 0 <= i < |s| ==> IsDigit(s[i])
  }

  function DigitChar(d: nat): (c: char)
    requires d < 10
    ensures IsDigit(c)
  {
    ('0' as int + d) as char
  }

  /** The value of a string of decimal digits, most significant first. */
  function DigitsValue(s: string): nat
    requires AllDigits(s)
    decreases |s|
  {
    if s == [] then 0 else DigitsValue(s[..|s| - 1]) * 10 + (s[|s| - 1] as int - '0' as int)
  }

  /** The decimal digits of n, without leading zeros. */
  function NatToString(n: nat): (s: string)
    decreases n
  {
    if n < 10 then [DigitChar(n)] else NatToString(n / 10) + [DigitChar(n % 10)]
  }

  /** Long.toString. */
  function LongToString(n: Long): string
  {
    if n < 0 then "-" + NatToString(0 - n as int) else NatToString(n)
  }

  /** Long.parseLong: an optional '+' or '-' and at least one decimal digit,
      whose value lies in the long range; None stands for NumberFormatException. */
  function ParseLong(s: string): (r: Option<Long>)
    ensures r.Some? ==> s != [] && (r.value < 0 ==> s[0] == '-')
  {
    if s == [] then None
    else
      var digits := if s[0] == '-' || s[0] == '+' then s[1..] else s;
      if digits == [] || !AllDigits(digits) then None
      else
        var v: int := if s[0] == '-' then 0 - DigitsValue(digits) else DigitsValue(digits);
        if MIN <= v <= MAX then Some(v) else None
  }

  lemma {:induction false} NatToStringDigits(n: nat)
    ensures AllDigits(NatToString(n)) && NatToString(n) != []
    ensures DigitsValue(NatToString(n)) == n
    decreases n
  {
    if n >= 10 {
      NatToStringDigits(n / 10);
      var s := NatToString(n);
      assert s[..|s| - 1] == NatToString(n / 10);
    }
  }

  /** Parsing what Long.toString printed gives the number back (for the
      non-negative numbers a version field can hold). */
  lemma ParseLongToString(n: Long)
    requires n >= 0
    ensures ParseLong(LongToString(n)) == Some(n)
  {
    NatToStringDigits(n);
  }
}
