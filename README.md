# Simple interest calculator — Dafny model

This project models the simple-interest calculator: a small library that computes simple
interest `principal × rate × time / 100` and the total repayment `principal + interest`, and the
interactive session that asks for the three values, checks them and reports the result.

- `InterestCalculator` (`interest_calculator.dfy`) models the two library functions over exact
  `real` arithmetic. The `ValueError` raised for a negative parameter becomes
  `Err(NegativeParameter)` of a `Result`.
- `ConsoleSession` (`console_session.dfy`) models the control flow of `main` as one pure function.
  Its inputs are the three parse results, each an `Option<real>`. Its output is the message the
  session ends with: an invalid-number error naming its cause, the "must be positive" rejection,
  or the reported principal, rate, time, interest and total.

Two rules are kept apart on purpose. The library accepts zero (`>= 0`). The session is
stricter and rejects zero (`> 0`) before it calls the library. Answers are read one after the
other, so the first one that fails to parse ends the session; the model records which one it was.
The handler for invalid numbers would also catch the library's own `ValueError`. The model keeps
that path and proves it cannot be reached behind the positivity guard.

Repeated calls with the same inputs give the same result because every member is a pure Dafny
function; no lemma is needed for that.

## Model

| member | source | states |
|---|---|---|
| InterestCalculator.SimpleInterest | interest_calculator.py:8-35 | succeeds exactly when all three inputs are non-negative, otherwise fails with the non-negativity error; a successful interest is non-negative and is zero exactly when one factor is zero |
| InterestCalculator.TotalAmount | interest_calculator.py:38-59 | fails exactly when the interest calculation fails, with the same error; a successful total is at least the principal |
| InterestCalculator.InterestIsAnnualTimesYears | interest_calculator.py:12-35 | for non-negative inputs the interest is the one-year interest at `rate` percent times the number of years, i.e. `interest × 100 == principal × rate × time` |
| InterestCalculator.NegativeAnywhereRejected | interest_calculator.py:30-31 | a negative principal, rate or time makes both functions fail with the non-negativity error, whichever parameter it is |
| InterestCalculator.TotalIsPrincipalPlusInterest | interest_calculator.py:55-59 | the total succeeds exactly for non-negative inputs and then equals principal plus interest |
| InterestCalculator.ZeroFactorGivesNoInterest | interest_calculator.py:30-58 | zero is valid at library level: a zero factor gives interest 0 and a total equal to the principal |
| InterestCalculator.InterestAdditiveInTime | interest_calculator.py:34 | interest does not compound: the interest over `t1 + t2` years is the sum of the interest over `t1` and over `t2` |
| InterestCalculator.InterestMonotone | interest_calculator.py:34-58 | interest and total never decrease when principal, rate or time grows |
| InterestCalculator.DocumentedExamples | interest_calculator.py:25-52 | the documented results: 1000 at 5% for 2 years gives interest 100 and total 1100; 5000 at 3.5% for 4 years gives 700 and 5700; a principal of -100 is rejected |
| ConsoleSession.FirstUnparsable | interest_calculator.py:71-73 | answers are parsed in order; the first one that is not a number is the one reported, and none is reported when all three parse |
| ConsoleSession.SessionOutcome | interest_calculator.py:69-93 | a parse failure gives the invalid-number error for the first unparsable answer; otherwise a value `<= 0` gives the positivity rejection with no result; otherwise the report carries the parsed values and exactly the library's interest and total |
| ConsoleSession.LibraryErrorUnreachable | interest_calculator.py:76-93 | the library's non-negativity error never reaches the invalid-number handler, because the guard has already rejected every non-positive value |
| ConsoleSession.ReportIsConsistent | interest_calculator.py:76-89 | a reported interest is the formula's value and is positive, and the reported total is principal plus interest and exceeds the principal |
| ConsoleSession.ZeroIsRejectedBySession | interest_calculator.py:30-78 | a zero value the library accepts is still refused by the session, before any calculation |
| ConsoleSession.SessionScenarios | interest_calculator.py:71-93 | non-numeric principal gives the invalid-number error; principal 0 or -100 gives the positivity rejection; 1000/5/2 reports 100 and 1100; 5000/3.5/4 reports 700 and 5700 |

## Left out

- Console I/O: the banner, the prompts and the printed lines (interest_calculator.py:67, 71-73, 77, 84-89, 93, 96). The model ends at the outcome that decides which message is printed.
- The text accepted by Python's `float(...)`: which strings parse, and `inf`/`nan`. Parsing is an abstract `Option<real>` input. Since `real` has no NaN, the model does not capture that a NaN answer would pass the `<= 0` guard.
- Currency formatting with thousands separators and two decimals: presentation only.
- IEEE-754 rounding: the model uses exact reals, so identities such as `5000 × 3.5 × 4 / 100 == 700` hold exactly; no claim is made about bit-exact float results.
- The `except Exception` branch (interest_calculator.py:94-96): nothing in the model raises any other exception, and its behaviour is only a printed message.
- The text of the error messages: the model keeps which error occurs, not its wording.
