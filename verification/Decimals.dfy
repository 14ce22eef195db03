/** Natural numbers in decimal digits. */
module Decimals {
  import opened Numbers

  const ZERO: U8 := 48

  function Decimal(n: nat): (r: seq<U8>)
    ensures r != []
  {
    if n < 10 then [ZERO + n] else Decimal(n / 10) + [ZERO + n % 10]
  }

  predicate IsDigit(byte: U8) {
    ZERO <= byte <= ZERO + 9
  }

  predicate AllDigits(text: seq<U8>) {
    forall i :: 0 <= i < |text| ==> IsDigit(text[i])
  }

  function DecimalValue(digits: seq<U8>): nat
    requires AllDigits(digits)
  {
    if digits == [] then 0 else 10 * DecimalValue(digits[..|digits| - 1]) + (digits[|digits| - 1] - ZERO)
  }

  lemma {:induction false} DecimalReadsBack(n: nat)
    ensures AllDigits(Decimal(n)) && DecimalValue(Decimal(n)) == n
  {
    if n >= 10 {
      DecimalReadsBack(n / 10);
      assert Decimal(n)[..|Decimal(n)| - 1] == Decimal(n / 10);
    }
  }

  /** No run of digits for a number is shorter than the one printed. */
  lemma {:induction false} DecimalIsShortest(digits: seq<U8>)
    requires digits != [] && AllDigits(digits)
    ensures |Decimal(DecimalValue(digits))| <= |digits|
  {
    var n := DecimalValue(digits);
    var front := digits[..|digits| - 1];
    if front != [] {
      DecimalIsShortest(front);
      assert n / 10 == DecimalValue(front);
    } else {
      assert DecimalValue(front) == 0;
    }
  }
}
