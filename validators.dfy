/**
 * The amount validator shared by the deposit and charge request paths.
 *
 * The input is whatever the caller handed over: either something that
 * converts to a Python `Decimal` (the conversion itself is not modelled; its
 * result is) or text that the conversion refuses.  A `Decimal` keeps its sign
 * bit separately from its digits, so `-0` and `0E-2` are distinct values that
 * both compare equal to zero.
 */
module Validators {

  /** A Python `Decimal`: finite (sign, coefficient, exponent), infinite or not-a-number. */
  datatype Decimal =
    | Finite(signed: bool, coefficient: nat, exponent: int)
    | Infinity(signed: bool)
    | NaN(signed: bool, signalling: bool)

  /** What reaches the validator: a value `Decimal(...)` converts, or text it refuses. */
  datatype AmountInput = Parsed(d: Decimal) | Unparsable(text: string)

  /** The two rejections the validator raises. */
  datatype AmountError = NotPositive | NotANumber

  datatype Verdict = Accepted(value: Decimal) | Rejected(error: AmountError)

  /** The message each rejection carries. */
  function Message(e: AmountError): (m: string)
  {
    match e
    case NotPositive => "Amount to deposit must not be less or equals to 0"
    case NotANumber => "Amount to deposit must be a number higher than 0"
  }

  /** `Decimal.is_signed()`: the sign bit, set for negatives, `-0`, `-Infinity` and `-NaN`. */
  predicate IsSigned(d: Decimal)
  {
    d.signed
  }

  /** `Decimal.is_zero()`: a finite value whose coefficient is zero, whatever its sign or exponent. */
  predicate IsZero(d: Decimal)
  {
    d.Finite? && d.coefficient == 0
  }

  /**
   * `deposit_is_valid`: a value that does not convert is "not a number"; a
   * converted value that is signed or zero is "not positive"; anything else is
   * returned unchanged.
   */
  function DepositIsValid(input: AmountInput): (r: Verdict)
    ensures r == Rejected(NotANumber) <==> input.Unparsable?
    ensures r == Rejected(NotPositive) <==> input.Parsed? && (IsSigned(input.d) || IsZero(input.d))
    ensures r.Accepted? ==> input.Parsed? && r.value == input.d
  {
    match input
    case Unparsable(_) => Rejected(NotANumber)
    case Parsed(d) => if IsSigned(d) || IsZero(d) then Rejected(NotPositive) else Accepted(d)
  }

  /** 10 raised to an integer power, as a real. */
  function Pow10(e: int): (p: real)
    decreases if e < 0 then -e else e
  {
    if e == 0 then 1.0
    else if e > 0 then 10.0 * Pow10(e - 1)
    else Pow10(e + 1) / 10.0
  }

  /** 10 raised to a natural power, as an integer. */
  function IntPow10(n: nat): (p: nat)
  {
    if n == 0 then 1 else 10 * IntPow10(n - 1)
  }

  /** The number a finite `Decimal` denotes. */
  function Value(d: Decimal): (v: real)
    requires d.Finite?
  {
    (if d.signed then -1.0 else 1.0) * (d.coefficient as real) * Pow10(d.exponent)
  }

  /**
   * The amount in hundredths, for a finite value with at most two fractional
   * digits (the `decimal_places=2` of the amount fields).
   */
  function Cents(d: Decimal): (c: int)
    requires d.Finite? && d.exponent >= -2
  {
    (if d.signed then -1 else 1) * d.coefficient * IntPow10(d.exponent + 2)
  }

  lemma {:induction false} Pow10Positive(e: int)
    ensures Pow10(e) > 0.0
    decreases if e < 0 then -e else e
  {
    if e > 0 {
      Pow10Positive(e - 1);
    } else if e < 0 {
      Pow10Positive(e + 1);
    }
  }

  lemma {:induction false} IntPow10Positive(n: nat)
    ensures IntPow10(n) > 0
  {
    if n > 0 {
      IntPow10Positive(n - 1);
    }
  }

  /** Moving two decimal places: 10^e * 100 == 10^(e + 2) for e >= -2. */
  lemma {:induction false} Pow10Shift(e: int)
    requires e >= -2
    ensures Pow10(e) * 100.0 == IntPow10(e + 2) as real
    decreases e + 2
  {
    if e == -2 {
      assert Pow10(-2) == Pow10(-1) / 10.0 == (Pow10(0) / 10.0) / 10.0;
    } else {
      Pow10Shift(e - 1);
      assert Pow10(e) == 10.0 * Pow10(e - 1);
      assert IntPow10(e + 2) == 10 * IntPow10(e + 1);
    }
  }

  /**
   * For a finite value the verdict depends only on the number it denotes:
   * negatives and every zero (signed or not) are "not positive", anything
   * strictly greater than zero is accepted unchanged.
   */
  lemma FiniteVerdictFollowsValue(d: Decimal)
    requires d.Finite?
    ensures Value(d) > 0.0 ==> DepositIsValid(Parsed(d)) == Accepted(d)
    ensures Value(d) <= 0.0 ==> DepositIsValid(Parsed(d)) == Rejected(NotPositive)
  {
    Pow10Positive(d.exponent);
    var m := (d.coefficient as real) * Pow10(d.exponent);
    if d.coefficient > 0 {
      assert m > 0.0;
    } else {
      assert m == 0.0;
    }
  }

  /** A negative number is rejected as not positive. */
  lemma NegativeRejected(d: Decimal)
    requires d.Finite? && Value(d) < 0.0
    ensures DepositIsValid(Parsed(d)) == Rejected(NotPositive)
    ensures Message(DepositIsValid(Parsed(d)).error) == "Amount to deposit must not be less or equals to 0"
  {
    FiniteVerdictFollowsValue(d);
  }

  /** Every zero, including a signed zero and a zero with fractional digits, is rejected as not positive. */
  lemma ZeroRejected(d: Decimal)
    requires d.Finite? && Value(d) == 0.0
    ensures DepositIsValid(Parsed(d)) == Rejected(NotPositive)
  {
    FiniteVerdictFollowsValue(d);
  }

  /** A strictly positive finite number is accepted and returned unchanged. */
  lemma PositiveAccepted(d: Decimal)
    requires d.Finite? && Value(d) > 0.0
    ensures DepositIsValid(Parsed(d)) == Accepted(d)
  {
    FiniteVerdictFollowsValue(d);
  }

  /** The two rejections reach the caller with different messages. */
  lemma MessagesDistinct()
    ensures Message(NotPositive) != Message(NotANumber)
  {
    assert Message(NotPositive)[23] != Message(NotANumber)[23];
  }

  /** The boundary cases: 0, -0, -0.01 are rejected as not positive; 0.01 is accepted. */
  lemma BoundaryExamples()
    ensures DepositIsValid(Parsed(Finite(false, 0, 0))) == Rejected(NotPositive)
    ensures DepositIsValid(Parsed(Finite(true, 0, 0))) == Rejected(NotPositive)
    ensures DepositIsValid(Parsed(Finite(true, 1, -2))) == Rejected(NotPositive)
    ensures DepositIsValid(Parsed(Finite(false, 1, -2))) == Accepted(Finite(false, 1, -2))
    ensures Value(Finite(false, 1, -2)) == 0.01 && Value(Finite(true, 1, -2)) == -0.01
  {
    assert Pow10(-2) == 0.01 by {
      assert Pow10(-1) == Pow10(0) / 10.0;
    }
  }

  /**
   * The non-finite values are judged only by their sign bit: `-Infinity`,
   * `-NaN` are rejected as not positive, while `Infinity`, `NaN` and `sNaN`
   * pass the validator unchanged.
   */
  lemma NonFiniteVerdict(d: Decimal)
    requires !d.Finite?
    ensures d.signed ==> DepositIsValid(Parsed(d)) == Rejected(NotPositive)
    ensures !d.signed ==> DepositIsValid(Parsed(d)) == Accepted(d)
  {
  }

  /**
   * An accepted finite amount with at most two fractional digits is a
   * strictly positive number of hundredths, and that number is the amount
   * times one hundred.
   */
  lemma AcceptedAmountIsPositiveCents(d: Decimal)
    requires d.Finite? && d.exponent >= -2
    requires DepositIsValid(Parsed(d)).Accepted?
    ensures Cents(d) > 0
    ensures Cents(d) as real == Value(d) * 100.0
  {
    IntPow10Positive(d.exponent + 2);
    Pow10Shift(d.exponent);
    assert d.coefficient > 0 && !d.signed;
    assert Cents(d) == d.coefficient * IntPow10(d.exponent + 2);
    calc {
      Value(d) * 100.0;
      (d.coefficient as real) * Pow10(d.exponent) * 100.0;
      (d.coefficient as real) * (IntPow10(d.exponent + 2) as real);
    }
  }
}
