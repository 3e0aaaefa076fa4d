/** Python's `str(n)` for an `int`, as the f-strings of the products service
    render `product.id` and `product.stock`, and a reader that turns such text
    back into the integer. */
module Decimal {
  import opened Http

  predicate IsDigit(c: char) {
    '0' <= c <= '9'
  }

  function DigitChar(d: nat): (c: char)
    requires d < 10
    ensures IsDigit(c)
  {
    (('0' as int) + d) as char
  }

  function DigitValue(c: char): (d: nat)
    requires IsDigit(c)
    ensures d < 10 && DigitChar(d) == c
  {
    (c as int) - ('0' as int)
  }

  /** Shortest decimal digits of `n`: non-empty, digits only, no leading zero. */
  function NatToString(n: nat): (s: string)
    ensures |s| > 0
    ensures forall i :: 0 <= i < |s| ==> IsDigit(s[i])
    ensures |s| > 1 ==> s[0] != '0'
    decreases n
  {
    if n < 10 then [DigitChar(n)] else NatToString(n / 10) + [DigitChar(n % 10)]
  }

  /** `str(n)`: a minus sign for negative numbers, then the digits. */
  function IntToString(n: int): (s: string)
    ensures |s| > 0
    ensures forall i :: 0 <= i < |s| ==> IsDigit(s[i]) || (i == 0 && s[i] == '-')
    ensures s[0] == '-' <==> n < 0
    ensures n >= 0 && |s| > 1 ==> s[0] != '0'
    ensures n < 0 ==> |s| > 1 && s[1] != '0'
  {
    if n < 0 then "-" + NatToString(-n) else NatToString(n)
  }

  /** Value of a run of decimal digits (the empty run is 0); nothing when a
      non-digit occurs. */
  function DigitsValue(s: string): Option<nat>
  {
    if |s| == 0 then Some(0)
    else
      match DigitsValue(s[..|s| - 1])
      case None => None
      case Some(v) =>
        if IsDigit(s[|s| - 1]) then Some(10 * v + DigitValue(s[|s| - 1])) else None
  }

  /** Reads an optionally signed decimal integer. */
  function ParseInt(s: string): Option<int>
  {
    if |s| == 0 then None
    else if s[0] == '-' then
      if |s| == 1 then None
      else match DigitsValue(s[1..])
           case None => None
           case Some(v) => Some(0 - (v as int))
    else
      match DigitsValue(s)
      case None => None
      case Some(v) => Some(v as int)
  }

  lemma {:induction false} DigitsValueOfNat(n: nat)
    ensures DigitsValue(NatToString(n)) == Some(n)
    decreases n
  {
    var s := NatToString(n);
    if n < 10 {
      assert s[..|s| - 1] == [];
    } else {
      assert s[..|s| - 1] == NatToString(n / 10);
      DigitsValueOfNat(n / 10);
    }
  }

  /** Reading back what `str` wrote gives the original integer. */
  lemma ParseIntRoundTrip(n: int)
    ensures ParseInt(IntToString(n)) == Some(n)
  {
    if n < 0 {
      assert IntToString(n)[1..] == NatToString(-n);
      DigitsValueOfNat(-n);
    } else {
      DigitsValueOfNat(n);
    }
  }
}
