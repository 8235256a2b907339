/** Decimal numerals. */
module Decimals {
  import opened Wrappers

  predicate IsDigit(c: char) {
    '0' <= c <= '9'
  }

  predicate AllDigits(s: string) {
    forall i :: 0 <= i < |s| ==> IsDigit(s[i])
  }

  function Decimal(n: nat): string {
    if n < 10 then [(48 + n) as char] else Decimal(n / 10) + [(48 + n % 10) as char]
  }

  function ReadDecimal(s: string): Option<nat> {
    if s == "" || !IsDigit(s[|s| - 1]) then None
    else
      var digit := s[|s| - 1] as int - 48;
      if |s| == 1 then Some(digit)
      else match ReadDecimal(s[..|s| - 1])
        case None => None
        case Some(n) => Some(n * 10 + digit)
  }

  lemma {:induction false} DecimalReadsBack(n: nat)
    ensures Decimal(n) != "" && AllDigits(Decimal(n)) && ReadDecimal(Decimal(n)) == Some(n)
  {
    if n >= 10 {
      DecimalReadsBack(n / 10);
      var s := Decimal(n);
      assert s[..|s| - 1] == Decimal(n / 10);
    }
  }


  /** Ten times more is one digit more at the end, and no zero comes first. */
  lemma {:induction false} DecimalIsUsual(n: nat)
    ensures n < 10 ==> Decimal(n) == ['0' + n as char]
    ensures n >= 10 ==> Decimal(n) == Decimal(n / 10) + ['0' + (n % 10) as char]
    ensures Decimal(n) != "" && (n > 0 ==> Decimal(n)[0] != '0')
  {
    if n < 10 {
      assert Decimal(n) == ['0' + n as char];
    } else {
      DecimalIsUsual(n / 10);
      assert Decimal(n)[0] == Decimal(n / 10)[0];
    }
  }
}
