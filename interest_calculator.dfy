/** Simple-interest library: the two calculator functions of the module.
    Amounts, rates (as a percentage) and times (in years) are exact reals. */
module InterestCalculator {

  /** The one failure the library raises: a negative principal, rate or time. */
  datatype CalcError = NegativeParameter

  datatype Result<T> = Ok(value: T) | Err(error: CalcError)

  /** The library's admissibility rule: every parameter is non-negative (zero is allowed). */
  predicate NonNegative(principal: real, rate: real, time: real)
  {
    principal >= 0.0 && rate >= 0.0 && time >= 0.0
  }

  /** Reference reading of the formula: the interest accrued in a single year at `rate` percent. */
  function AnnualInterest(principal: real, rate: real): real
  {
    principal * (rate / 100.0)
  }

  /** Simple interest `principal * rate * time / 100`, or the non-negativity error. */
  function SimpleInterest(principal: real, rate: real, time: real): (r: Result<real>)
    ensures r.Ok? <==> NonNegative(principal, rate, time)
    ensures r.Err? ==> r.error == NegativeParameter
    ensures r.Ok? ==> r.value >= 0.0
    ensures r.Ok? ==> (r.value == 0.0 <==> principal == 0.0 || rate == 0.0 || time == 0.0)
  {
    if principal < 0.0 || rate < 0.0 || time < 0.0 then
      Err(NegativeParameter)
    else
      Ok(principal * rate * time / 100.0)
  }

  /** Total repayment: principal plus simple interest, with the same validation. */
  function TotalAmount(principal: real, rate: real, time: real): (r: Result<real>)
    ensures r.Ok? <==> SimpleInterest(principal, rate, time).Ok?
    ensures r.Err? ==> r == SimpleInterest(principal, rate, time)
    ensures r.Ok? ==> r.value >= principal
  {
    match SimpleInterest(principal, rate, time)
    case Err(e) => Err(e)
    case Ok(interest) => Ok(principal + interest)
  }

  /** For admissible inputs the interest is the one-year interest accrued over `time` years. */
  lemma InterestIsAnnualTimesYears(principal: real, rate: real, time: real)
    requires NonNegative(principal, rate, time)
    ensures SimpleInterest(principal, rate, time) == Ok(AnnualInterest(principal, rate) * time)
    ensures SimpleInterest(principal, rate, time).value * 100.0 == principal * rate * time
  {
    calc {
      SimpleInterest(principal, rate, time).value;
      principal * rate * time / 100.0;
      principal * (rate * time) / 100.0;
      principal * (rate / 100.0 * time);
      principal * (rate / 100.0) * time;
      AnnualInterest(principal, rate) * time;
    }
  }

  /** A negative value in any one position is rejected, whatever the other two are. */
  lemma NegativeAnywhereRejected(principal: real, rate: real, time: real)
    requires principal < 0.0 || rate < 0.0 || time < 0.0
    ensures SimpleInterest(principal, rate, time) == Err(NegativeParameter)
    ensures TotalAmount(principal, rate, time) == Err(NegativeParameter)
  {
  }

  /** The total is the principal plus the interest, exactly when both succeed. */
  lemma TotalIsPrincipalPlusInterest(principal: real, rate: real, time: real)
    ensures TotalAmount(principal, rate, time).Ok? <==> NonNegative(principal, rate, time)
    ensures NonNegative(principal, rate, time) ==>
      TotalAmount(principal, rate, time).value == principal + SimpleInterest(principal, rate, time).value
  {
  }

  /** Zero is valid at library level: a zero factor gives no interest and the total is the principal. */
  lemma ZeroFactorGivesNoInterest(principal: real, rate: real, time: real)
    requires NonNegative(principal, rate, time)
    requires principal == 0.0 || rate == 0.0 || time == 0.0
    ensures SimpleInterest(principal, rate, time) == Ok(0.0)
    ensures TotalAmount(principal, rate, time) == Ok(principal)
  {
  }

  /** Simple interest does not compound: interest over two consecutive periods is the sum of the
      interest over each. */
  lemma InterestAdditiveInTime(principal: real, rate: real, t1: real, t2: real)
    requires NonNegative(principal, rate, t1) && t2 >= 0.0
    ensures SimpleInterest(principal, rate, t1 + t2).value
         == SimpleInterest(principal, rate, t1).value + SimpleInterest(principal, rate, t2).value
  {
  }

  /** Interest grows with each of principal, rate and time. */
  lemma InterestMonotone(p1: real, r1: real, t1: real, p2: real, r2: real, t2: real)
    requires NonNegative(p1, r1, t1)
    requires p1 <= p2 && r1 <= r2 && t1 <= t2
    ensures SimpleInterest(p1, r1, t1).value <= SimpleInterest(p2, r2, t2).value
    ensures TotalAmount(p1, r1, t1).value <= TotalAmount(p2, r2, t2).value
  {
    ScaleMonotone(p1, p2, r1);
    ScaleMonotone(r1, r2, p2);
    ScaleMonotone(p1 * r1, p2 * r2, t1);
    ScaleMonotone(t1, t2, p2 * r2);
    calc {
      p1 * r1 * t1;
    <=
      p2 * r2 * t1;
    <=
      p2 * r2 * t2;
    }
  }

  /** Multiplying by a non-negative factor preserves order. */
  lemma ScaleMonotone(a: real, b: real, c: real)
    requires a <= b && c >= 0.0
    ensures a * c <= b * c && c * a <= c * b
  {
  }

  /** The examples documented on the two functions, and two further worked cases. */
  lemma DocumentedExamples()
    ensures SimpleInterest(1000.0, 5.0, 2.0) == Ok(100.0)
    ensures TotalAmount(1000.0, 5.0, 2.0) == Ok(1100.0)
    ensures SimpleInterest(5000.0, 3.5, 4.0) == Ok(700.0)
    ensures TotalAmount(5000.0, 3.5, 4.0) == Ok(5700.0)
    ensures SimpleInterest(-100.0, 5.0, 1.0) == Err(NegativeParameter)
    ensures TotalAmount(-100.0, 5.0, 1.0) == Err(NegativeParameter)
  {
  }
}
