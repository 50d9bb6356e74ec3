/**
 * Decimal integers as the commands read and write them: `Integer.parseInt` for a page argument,
 * and `String.valueOf` for the page numbers the help buttons put into their commands.
 */
module Numbers {
  import opened RebusTypes

  predicate IsDigit(c: char)
  {
    '0' <= c <= '9'
  }

  function DigitValue(c: char): nat
    requires IsDigit(c)
  {
    (c as int) - ('0' as int)
  }

  function DigitChar(d: nat): (c: char)
    requires d < 10
    ensures IsDigit(c) && DigitValue(c) == d
  {
    (('0' as int) + d) as char
  }

  predicate AllDigits(s: string)
  {
    forall k | 0 <= k < |s| :: IsDigit(s[k])
  }

  /** The value of a string of decimal digits, most significant first. */
  function DigitsValue(s: string): nat
    requires AllDigits(s)
  {
    if s == [] then 0 else DigitsValue(s[..|s| - 1]) * 10 + DigitValue(s[|s| - 1])
  }

  /**
   * `Integer.parseInt`: an optional sign, then one or more ASCII digits, whose value must fit in
   * an `int`; anything else throws (`None`).
   */
  function ParseInt(s: string): Option<int>
  {
    if s == [] then None
    else
      var digits := if s[0] == '-' || s[0] == '+' then s[1..] else s;
      if digits == [] || !AllDigits(digits) then None
      else
        var v := if s[0] == '-' then -(DigitsValue(digits) as int) else DigitsValue(digits);
        if IntMin <= v <= IntMax then Some(v) else None
  }

  /** The decimal digits of n, without leading zeros. */
  function NatString(n: nat): (s: string)
    ensures s != [] && AllDigits(s)
  {
    if n < 10 then [DigitChar(n)] else NatString(n / 10) + [DigitChar(n % 10)]
  }

  /** `String.valueOf(int)`. */
  function DecimalString(n: int): string
  {
    if n < 0 then "-" + NatString(-n) else NatString(n)
  }

  lemma {:induction false} NatStringValue(n: nat)
    ensures DigitsValue(NatString(n)) == n
  {
    if n >= 10 {
      var s := NatString(n);
      assert s[..|s| - 1] == NatString(n / 10);
      NatStringValue(n / 10);
    }
  }

  /** Every `int` written by `String.valueOf` is read back unchanged by `Integer.parseInt`. */
  lemma ParseIntRoundTrip(n: int)
    requires IntMin <= n <= IntMax
    ensures ParseInt(DecimalString(n)) == Some(n)
  {
    var s := DecimalString(n);
    if n < 0 {
      NatStringValue(-n);
      assert s[1..] == NatString(-n);
    } else {
      NatStringValue(n);
      assert IsDigit(s[0]);
    }
  }

  /** Only values in the `int` range are accepted; an empty argument, a bare sign and a non-digit are refused. */
  lemma ParseIntRefuses(s: string)
    ensures ParseInt(s).Some? ==> IntMin <= ParseInt(s).value <= IntMax
    ensures ParseInt("") == None && ParseInt("-") == None && ParseInt("+") == None && ParseInt("2x") == None
  {
    assert !AllDigits("2x") by {
      assert !IsDigit("2x"[1]);
    }
  }
}
