/** The decimal text of a whole number, as `String(n)` writes it and `Number(s)` reads it. */
module Decimals {
  import opened JsText

  predicate IsDigit(u: Unit) { 0x30 <= u <= 0x39 }

  predicate AllDigits(s: Text) { forall i :: 0 <= i < |s| ==> IsDigit(s[i]) }

  /** `/^[1-9]\d*$/`. */
  predicate IsPositiveDecimal(s: Text) { s != [] && s[0] != 0x30 && AllDigits(s) }

  function DigitValue(u: Unit): nat
    requires IsDigit(u)
  {
    u as int - 0x30
  }

  function DecimalValue(s: Text): nat
    requires AllDigits(s)
  {
    if s == [] then 0 else DecimalValue(s[..|s| - 1]) * 10 + DigitValue(s[|s| - 1])
  }

  function Decimal(n: nat): Text {
    (if n < 10 then [] else Decimal(n / 10)) + [(0x30 + n % 10) as Unit]
  }

  lemma {:induction false} DecimalIs(n: nat)
    ensures AllDigits(Decimal(n)) && DecimalValue(Decimal(n)) == n
    ensures n > 0 ==> IsPositiveDecimal(Decimal(n))
  {
    var d := Decimal(n);
    if n >= 10 {
      DecimalIs(n / 10);
      assert d[..|d| - 1] == Decimal(n / 10);
    } else {
      assert d[..|d| - 1] == [] && DecimalValue([]) == 0;
    }
  }

  lemma {:induction false} DecimalOf(s: Text)
    requires IsPositiveDecimal(s)
    ensures DecimalValue(s) > 0 && Decimal(DecimalValue(s)) == s
  {
    var init := s[..|s| - 1];
    if init == [] {
      assert DecimalValue(init) == 0;
    } else {
      DecimalOf(init);
    }
    assert s == init + [s[|s| - 1]];
  }
}
