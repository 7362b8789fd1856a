/** The decision rule of the interactive session, without its console I/O: given what parsing each
    of the three answers produced, which message the session ends with. */
module ConsoleSession {
  import opened InterestCalculator

  /** What `float(...)` made of one line of input: a number, or a parse failure. */
  datatype Option<T> = None | Some(value: T)

  /** The three answers, in the order they are asked for. */
  datatype Field = Principal | Rate | Time

  /** The cause reported by the "please enter valid numbers" message: either an answer that was not
      a number, or a `ValueError` raised by the library, which the same handler would catch. */
  datatype InvalidCause = Unparsable(field: Field) | Rejected(error: CalcError)

  /** How a session ends. */
  datatype Outcome =
    | InvalidNumber(cause: InvalidCause)
    | NotPositive
    | Report(principal: real, rate: real, time: real, interest: real, total: real)

  /** The interface's own, stricter rule: every value is strictly positive. */
  predicate AllPositive(principal: real, rate: real, time: real)
  {
    principal > 0.0 && rate > 0.0 && time > 0.0
  }

  /** Answers are read one after another, so the first one that fails to parse ends the session
      and the later ones are never read. */
  function FirstUnparsable(p: Option<real>, r: Option<real>, t: Option<real>): (f: Option<Field>)
    ensures f.None? <==> p.Some? && r.Some? && t.Some?
    ensures f == Some(Principal) <==> p.None?
    ensures f == Some(Rate) <==> p.Some? && r.None?
    ensures f == Some(Time) <==> p.Some? && r.Some? && t.None?
  {
    if p.None? then Some(Principal)
    else if r.None? then Some(Rate)
    else if t.None? then Some(Time)
    else None
  }

  /** The session: parse failure, then the positivity guard, then both library calls. */
  function SessionOutcome(p: Option<real>, r: Option<real>, t: Option<real>): (o: Outcome)
    ensures o.InvalidNumber? <==> FirstUnparsable(p, r, t).Some?
    ensures o.InvalidNumber? ==> o.cause == Unparsable(FirstUnparsable(p, r, t).value)
    ensures o.NotPositive? <==>
      p.Some? && r.Some? && t.Some? && !AllPositive(p.value, r.value, t.value)
    ensures o.Report? <==>
      p.Some? && r.Some? && t.Some? && AllPositive(p.value, r.value, t.value)
    ensures o.Report? ==>
      o.principal == p.value && o.rate == r.value && o.time == t.value &&
      SimpleInterest(o.principal, o.rate, o.time) == Ok(o.interest) &&
      TotalAmount(o.principal, o.rate, o.time) == Ok(o.total)
  {
    if p.None? then InvalidNumber(Unparsable(Principal))
    else if r.None? then InvalidNumber(Unparsable(Rate))
    else if t.None? then InvalidNumber(Unparsable(Time))
    else
      var principal, rate, time := p.value, r.value, t.value;
      if principal <= 0.0 || rate <= 0.0 || time <= 0.0 then
        NotPositive
      else
        match SimpleInterest(principal, rate, time)
        case Err(e) => InvalidNumber(Rejected(e))
        case Ok(interest) =>
          match TotalAmount(principal, rate, time)
          case Err(e) => InvalidNumber(Rejected(e))
          case Ok(total) => Report(principal, rate, time, interest, total)
  }

  /** Behind the positivity guard the library never raises, so its error never reaches the
      handler: every "valid numbers" message comes from parsing. */
  lemma LibraryErrorUnreachable(p: Option<real>, r: Option<real>, t: Option<real>)
    ensures SessionOutcome(p, r, t) != InvalidNumber(Rejected(NegativeParameter))
  {
  }

  /** A reported result obeys the library's identities: the interest is the formula and the
      total is the principal plus that interest, both positive. */
  lemma ReportIsConsistent(p: Option<real>, r: Option<real>, t: Option<real>)
    requires SessionOutcome(p, r, t).Report?
    ensures var o := SessionOutcome(p, r, t);
      o.interest * 100.0 == o.principal * o.rate * o.time &&
      o.total == o.principal + o.interest &&
      o.interest > 0.0 && o.total > o.principal
  {
    var o := SessionOutcome(p, r, t);
    InterestIsAnnualTimesYears(o.principal, o.rate, o.time);
    TotalIsPrincipalPlusInterest(o.principal, o.rate, o.time);
  }

  /** Zero passes the library's rule but not the interface's: the session refuses it before
      computing anything, in whichever position it appears. */
  lemma ZeroIsRejectedBySession(principal: real, rate: real, time: real)
    requires NonNegative(principal, rate, time)
    requires principal == 0.0 || rate == 0.0 || time == 0.0
    ensures SimpleInterest(principal, rate, time).Ok?
    ensures SessionOutcome(Some(principal), Some(rate), Some(time)) == NotPositive
  {
  }

  /** The described console scenarios. */
  lemma SessionScenarios()
    ensures SessionOutcome(None, Some(5.0), Some(2.0)) == InvalidNumber(Unparsable(Principal))
    ensures SessionOutcome(Some(0.0), Some(5.0), Some(2.0)) == NotPositive
    ensures SessionOutcome(Some(1000.0), Some(5.0), Some(2.0)) == Report(1000.0, 5.0, 2.0, 100.0, 1100.0)
    ensures SessionOutcome(Some(5000.0), Some(3.5), Some(4.0)) == Report(5000.0, 3.5, 4.0, 700.0, 5700.0)
    ensures SessionOutcome(Some(-100.0), Some(5.0), Some(1.0)) == NotPositive
  {
  }
}
