/** Decimal notation of natural numbers. The plural rule is described in terms of
    how a number is written ("ends in 1, but not in 11"); this module gives that
    notation an independent definition so the rule's arithmetic can be checked
    against it. */
module DecimalNotation {

  /** A well-formed decimal numeral: at least one digit, every digit below ten,
      and no leading zero unless the numeral is the single digit 0. */
  predicate Canonical(ds: seq<nat>) {
    |ds| >= 1 && (forall i :: 0 <= i < |ds| ==> ds[i] < 10) && (ds[0] == 0 ==> |ds| == 1)
  }

  /** The decimal digits of `n`, most significant first. */
  function Digits(n: nat): (ds: seq<nat>)
    ensures Canonical(ds)
    ensures n < 10 <==> |ds| == 1
  {
    if n < 10 then [n] else Digits(n / 10) + [n % 10]
  }

  /** The number a sequence of decimal digits denotes. */
  function Value(ds: seq<nat>): nat {
    if ds == [] then 0 else 10 * Value(ds[..|ds| - 1]) + ds[|ds| - 1]
  }

  /** The last digit of the numeral of `n`. */
  function LastDigit(n: nat): nat {
    var ds := Digits(n); ds[|ds| - 1]
  }

  /** The next-to-last digit of the numeral of `n`; a one-digit numeral has none, read as 0. */
  function TensDigit(n: nat): nat {
    var ds := Digits(n); if |ds| >= 2 then ds[|ds| - 2] else 0
  }

  /** Reading back the digits of `n` gives `n`. */
  lemma {:induction false} ValueOfDigits(n: nat)
    ensures Value(Digits(n)) == n
  {
    if n >= 10 {
      ValueOfDigits(n / 10);
      var ds := Digits(n);
      assert ds[..|ds| - 1] == Digits(n / 10);
    }
  }

  /** A numeral whose leading digit is not zero denotes a positive number. */
  lemma {:induction false} ValuePositive(ds: seq<nat>)
    requires |ds| >= 1 && ds[0] != 0
    ensures Value(ds) > 0
  {
    if |ds| > 1 {
      ValuePositive(ds[..|ds| - 1]);
    }
  }

  /** Every well-formed numeral is the numeral of the number it denotes. */
  lemma {:induction false} DigitsOfValue(ds: seq<nat>)
    requires Canonical(ds)
    ensures Digits(Value(ds)) == ds
  {
    if |ds| > 1 {
      var front := ds[..|ds| - 1];
      assert Canonical(front);
      DigitsOfValue(front);
      ValuePositive(front);
      var v := Value(ds);
      assert v == 10 * Value(front) + ds[|ds| - 1];
      assert v / 10 == Value(front) && v % 10 == ds[|ds| - 1];
      assert ds == front + [ds[|ds| - 1]];
    } else {
      assert Value(ds) == ds[0] by { assert ds[..0] == []; }
    }
  }

  /** The last digit is the remainder modulo 10. */
  lemma LastDigitIsRemainder(n: nat)
    ensures LastDigit(n) == n % 10
  {
  }

  /** The tens digit is the remainder modulo 10 of the quotient by 10. */
  lemma {:induction false} TensDigitIsRemainder(n: nat)
    ensures TensDigit(n) == (n / 10) % 10
  {
    if n >= 10 {
      LastDigitIsRemainder(n / 10);
      assert Digits(n)[..|Digits(n)| - 1] == Digits(n / 10);
    }
  }

  /** The remainder modulo 100 is the number formed by the last two digits. */
  lemma {:induction false} LastTwoDigits(n: nat)
    ensures LastDigit(n) < 10 && TensDigit(n) < 10
    ensures n % 100 == 10 * TensDigit(n) + LastDigit(n)
  {
    LastDigitIsRemainder(n);
    TensDigitIsRemainder(n);
    var q, r := n / 100, n % 100;
    assert n == 100 * q + r;
    assert n == 10 * (10 * q + r / 10) + r % 10;
    assert n / 10 == 10 * q + r / 10;
    assert (n / 10) % 10 == r / 10;
  }
}
