# mortgage_calc in Dafny

A model of the calculation core of `mortgage_calc`, a small web calculator
for the overpayment on an annuity mortgage. The model covers four functions of
`app.py`:

- `calculate_mortgage` picks the down payment (a fixed amount, else a
  percentage of the price, else nothing) and rejects a non-positive term or
  loan. It then walks the months of the term. Each month is charged interest
  on the remaining balance, pays the rounded monthly payment, and gets a
  schedule row dated one more month after the start. The last month always
  pays off whatever is left.
- The nested `add_months` steps a date by calendar months. It keeps the day
  of the month unless the target month is shorter.
- `parse_form` cleans up and reads the five form fields, then applies eight
  ordered rejection rules.
- `format_money` writes an amount with two decimals and its whole part
  grouped in threes by spaces.

Units are exact integers throughout:

- Money is whole cents.
- The down-payment percentage and the annual rate are basis points
  (hundredths of a percent).
- Python's `round(x, 2)` on an amount becomes round-half-to-even on an exact
  quotient of integers (`Money.RoundHalfEven`).
- A month's interest is `balance * rate / 120000` cents, rounded.

Files:

- `wrappers.dfy`: `Option` and `Result`.
- `money.dfy`: rounding.
- `calendar.dfy`: Gregorian dates and `add_months`.
- `mortgage.dfy`: the schedule and `calculate_mortgage`.
- `forms.dfy`: `parse_form`.
- `format.dfy`: `format_money`.

The schedule is specified by the function `Mortgage.Periods`, built row by
row from `Mortgage.Row`, and the payment loop `Mortgage.PaymentLoop` is proved
to build exactly that list. `Periods` is written for any monthly-interest
rule, so the repayment lemmas hold whatever the rule is. The calculation
plugs in `Mortgage.InterestRule`, the rounded interest at the annual rate.

Some behaviours of app.py worth noting:

- `calculate_mortgage` itself accepts a negative rate. It then uses the
  annuity branch for the payment and charges no interest. The model does
  the same.
- A payment date past year 9999 makes `date()` raise ValueError. The form
  handler reports it like any other input error, and the model returns
  `DateOutOfRange`.
- At a non-zero rate the annuity formula can raise before the loop starts.
  `(1 + monthly_rate) ** months` overflows for a long term, and a rate too
  small to change 1.0 makes `factor - 1` zero. Neither exception is caught by
  the form handler. The model returns `PaymentNotComputable` when the
  payment parameter is None.

## Model

| member | source | states |
|---|---|---|
| Money.RoundHalfEven | app.py:64 | the result is a nearest integer to n/d, and of two equally near ones the even one (round-half-to-even) |
| Money.RoundedQuotientIsUnique | app.py:64 | at most one integer is such a rounded quotient, so `RoundHalfEven` is the rounding and not merely one candidate |
| Calendar.IsLeapYear | app.py:79 | the Gregorian leap rule that `monthrange` applies: divisible by 4, and not by 100 unless also by 400; `Calendar.DaysInMonth` gives February 29 days exactly in such a year |
| Calendar.DaysInMonth | app.py:79 | between 28 and 31 days; February has 29 exactly in a Gregorian leap year, every other month at least 30 |
| Calendar.ValidDate | app.py:81 | what `date(year, month, day)` accepts: year 1..9999, month 1..12, and a day within that month's length; `Calendar.AddMonthsValid` shows that a stepped date fails it only through its year |
| Calendar.AddMonths | app.py:74-81 | the month number moves by exactly k (the year absorbs the carry); the month stays in 1..12; the day is the start's day, or the target month's last day when that month is shorter |
| Calendar.AddZeroMonths | app.py:74-81 | stepping a valid date by zero months gives it back |
| Calendar.AddMonthsValid | app.py:74-81 | a stepped date is a real calendar date exactly when its year lies in 1..9999 |
| Calendar.AddMonthsYearMonotone | app.py:81 | a later offset from the same start never lands in an earlier year, so the last payment date is the first to pass year 9999 |
| Calendar.AddMonthsIncreasing | app.py:83-98 | the payment dates are strictly increasing |
| Calendar.AddMonthsCompose | app.py:74-81 | from a day of the month up to 28, stepping i months and then j months is stepping i + j months |
| Calendar.AddMonthsExamples | app.py:74-81 | 31 Jan 2024 steps to 29 Feb 2024 and 31 Jan 2023 to 28 Feb 2023; 15 Dec 2023 steps to 15 Jan 2024; 31 Mar 2024 back one month is 29 Feb |
| Mortgage.DownPaymentValue | app.py:43-48 | a positive fixed amount wins; otherwise a positive percentage gives that share of the price, rounded down to the cent; otherwise 0 |
| Mortgage.LoanAmount | app.py:50 | the price less the down payment of `Mortgage.DownPaymentValue`; `Mortgage.CalculateMortgage` rejects exactly the inputs where it is not positive, and `Forms.AdmissibleInputsAreComputable` shows it positive for every admissible input |
| Mortgage.MonthlyInterest | app.py:85 | exactly 0 unless the rate is positive; otherwise balance × rate / 120000, rounded half to even |
| Mortgage.InterestRule | app.py:85 | the interest rule the calculation runs the schedule with: for every balance, the `Mortgage.MonthlyInterest` at the annual rate |
| Mortgage.BasePayment | app.py:57-64 | at rate 0 the loan divided by the months, rounded, always defined; at any other rate the rounded annuity payment, or None where the float formula raises |
| Mortgage.PaymentDates | app.py:98 | one date per month of the term, the j-th (counting from 0) exactly j months after the start |
| Mortgage.Row | app.py:84-108 | the row of period k + 1: numbered k + 1 and dated `dates[k]`; interest charged on the balance owed; payment = interest + principal; the last period repays the whole balance, every other pays the base payment; the balance shown is what is left, never below 0 |
| Mortgage.Periods | app.py:83-108 | the schedule from period k + 1 on, one row per remaining month; its numbering, rows, repayment and totals are stated by `PeriodsNumbering`, `PeriodsRowAt`, `PeriodsPayments`, `PeriodsRepay` and `PeriodsTotalPaid` |
| Mortgage.PeriodsNumbering | app.py:83-108 | the remaining periods give one row each, numbered consecutively and dated in turn |
| Mortgage.PeriodsRowAt | app.py:84-95 | row i is the period row for what the loan leaves unpaid after the principal of rows 0..i-1 |
| Mortgage.ScheduleExtend | app.py:83-109 | one pass of the loop body: appending the next row to a prefix of the schedule keeps the prefix, the balance and the interest total in step |
| Mortgage.PeriodsRepay | app.py:89-95 | the principal column sums to the amount owed and the last row's balance is 0 |
| Mortgage.PeriodsPayments | app.py:86-93 | every row's payment is its interest plus its principal; every row but the last pays the base payment |
| Mortgage.PeriodsTotalPaid | app.py:111 | the payment column totals the loan plus the interest column |
| Mortgage.ScheduleInterest | app.py:85-95 | each month's interest is charged on the loan less the principal repaid before it |
| Mortgage.ScheduleFacts | app.py:83-112 | one row per month, numbered from 1 and dated in turn; every row but the last pays the base payment, with principal equal to payment minus interest; the last pays principal plus interest; the principal repays the loan, nothing is owed at the end, and the payments total the loan plus the interest |
| Mortgage.InterestFreeSchedule | app.py:85 | at a rate of zero or below no row charges interest, so the payments total exactly the loan |
| Mortgage.ScheduleDatesValid | app.py:98 | when the last payment date is valid, every payment date is |
| Mortgage.PaymentLoop | app.py:67-109 | the loop fails with `DateOutOfRange` exactly when the last payment date passes year 9999; otherwise it returns the schedule `Periods` and the sum of its interest column |
| Mortgage.CalculateMortgage | app.py:38-125 | the term error exactly when years × 12 ≤ 0; the down-payment error exactly when the term is fine and the loan ≤ 0; the payment error exactly when both are fine, the rate is non-zero and the annuity formula raises; the date error exactly when all three are fine and the last date passes 9999. On success: the loan, the base payment and the schedule above; months rows numbered 1..months, row i dated i months after the start and valid; principal sum = loan; last balance 0; total interest, overpayment and total paid are the column sums; total paid = loan + total interest; required income = payment / 0.3 |
| Forms.RemoveSpaces | app.py:132 | `replace(" ", "")`: what it keeps and in which order is stated by `Forms.RemoveSpacesKeeps` and `Forms.RemoveSpacesAppend` |
| Forms.ReplaceCommas | app.py:132 | `replace(",", ".")`: same length, every comma becomes a point and every other character stays; `Forms.CleanHasNoSpaceOrComma` shows no comma survives the clean-up |
| Forms.TrimStart | app.py:132 | `lstrip()`, stated by `Forms.TrimStartSpec` |
| Forms.TrimEnd | app.py:132 | `rstrip()`, stated by `Forms.TrimEndSpec` |
| Forms.Strip | app.py:132 | `strip()`, stated by `Forms.StripSpec` |
| Forms.Clean | app.py:132 | the clean-up of `parse_float` and `parse_int`: drop spaces, commas to points, strip; `Forms.CleanIsEmpty` and `Forms.CleanHasNoSpaceOrComma` state what it gives |
| Forms.RemoveSpacesKeeps | app.py:132 | dropping spaces keeps every character other than a space, and only those; a text without spaces is unchanged |
| Forms.RemoveSpacesAppend | app.py:132 | dropping spaces from a concatenation is dropping them from each piece, so the other characters keep their order and multiplicity |
| Forms.TrimStartSpec | app.py:132 | stripping the front removes only white space and stops at a non-space |
| Forms.TrimEndSpec | app.py:132 | stripping the back removes only white space and stops at a non-space |
| Forms.StripSpec | app.py:132 | `strip()` keeps a contiguous piece of the text that starts and ends with a non-space, with only white space around it; it is empty exactly when the text is all white space |
| Forms.CleanIsEmpty | app.py:131-141 | a field cleans up to "" exactly when it is all white space |
| Forms.CleanHasNoSpaceOrComma | app.py:132 | the cleaned text has no space and no comma left |
| Forms.ParseField | app.py:131-141 | `parse_float` / `parse_int` over an abstract literal reader: blank reads 0, anything else is the reader applied to the cleaned text, as `Forms.ParseFieldBlank` states |
| Forms.FormValue | app.py:143-147 | `form.get(key, "")`: the field's text when the form has the key, and "" when it does not |
| Forms.ReadField | app.py:143-147 | one field read: its form text, parsed by the reader for that field (`float` for four fields, `int(float())` for the years) |
| Forms.ParseFieldBlank | app.py:131-141 | a blank field reads as 0; any other field goes, cleaned and non-empty, to the literal reader |
| Forms.AdmissibleBreaksNoRule | app.py:149-164 | passing the eight checks means no rule at all is broken |
| Forms.Validate | app.py:149-164 | the input comes back unchanged exactly when it passes every check; otherwise the error is a rule it breaks, and it passes every rule before that one |
| Forms.ReadFields | app.py:143-147 | the fields are read in order; the first one that is not a number is reported, and all earlier ones did read |
| Forms.ParseForm | app.py:128-172 | a field that is not a number is reported before any check; once all fields read, the form is accepted exactly when admissible, comes back unchanged, and is otherwise rejected with the first rule it breaks |
| Forms.BlankFormIsRejected | app.py:131-149 | an empty form reads as all zeros and is rejected for its price |
| Forms.AdmissibleInputsAreComputable | app.py:149-164 | an input that passes the checks has a positive term and a down payment in [0, price), so a positive loan |
| Forms.AcceptedFormIsComputable | app.py:128-172 | a form that parses never makes the calculation raise for its term or its down payment |
| Format.DigitsSpec | app.py:177 | the numeral of n is non-empty, all digits, without a leading zero, and denotes n |
| Format.GroupLength | app.py:177 | grouping adds one separator per full group of three after the first, so the grouped length is never a multiple of four |
| Format.GroupSpaceAt | app.py:177 | a grouped numeral has a space exactly at the positions a multiple of four from the end |
| Format.GroupSpaces | app.py:177 | groups of three separated by single spaces, the leading group with one to three digits |
| Format.GroupSpaceInTail | app.py:177 | within the last group of three and the space before it, a space stands exactly four positions from the end |
| Format.GroupUngroup | app.py:177 | removing the spaces from a grouped numeral gives the numeral back |
| Format.GroupDigits | app.py:177 | grouping adds only spaces |
| Format.GroupFirst | app.py:177 | the grouped numeral starts with the numeral's first digit |
| Format.FormatMoney | app.py:175-177 | `format_money` on whole cents; its layout is stated by `Format.FormatMoneyPieces` and `Format.FormatMoneyShape`, and `Format.FormatMoneyRoundTrip` reads it back to the amount |
| Format.FormatMoneyPieces | app.py:175-177 | the text is the sign for a negative amount, the grouped whole part, a point and the two cent digits |
| Format.TwoDigitsValue | app.py:177 | the two cent digits denote the cents |
| Format.FormatMoneyShape | app.py:175-177 | a "-" exactly for a negative amount; a point then exactly two digits giving the cents; the whole part in groups of three separated by single spaces, leading group one to three digits, no leading zero unless it is 0, and its digits read the whole units |
| Format.FormatMoneyRoundTrip | app.py:175-177 | reading a formatted amount back gives the amount |

## Left out

- The Flask application: the route, the template, the error display and the server start. This is HTTP and UI plumbing.
- `date.today()` gives the start date. The model takes the start date as a parameter of `Mortgage.CalculateMortgage`.
- The row's date is modelled as a `Calendar.Date`. The model does not produce the `isoformat()` string.
- Mortgage.BasePayment: the annuity formula at a non-zero rate is floating point (a power and a division). The rounded payment enters as the parameter `annuityPayment`, None where the formula raises. Only the rate-0 branch is computed, and which terms and rates overflow is not derived.
- Mortgage.DownPaymentValue: the source keeps the percentage share as an unrounded float. The model rounds it down to the cent, and the loan amount is therefore whole cents. The loan is positive in the model exactly when the exact share leaves a positive loan.
- Money.RoundHalfEven: Python rounds binary floats, so a value that is not exactly representable can round the other way at a tie. The model rounds exact quotients half to even. The running sums are exact cents and are never re-rounded.
- `required_income` is kept as the exact real `payment / 0.3`. No float division is modelled.
- Forms.ParseField: the model's inputs are whole cents and whole basis points. A literal finer than that, such as an annual rate of 7.125 or an amount of 0.001, has no exact value in `Mortgage.MortgageInput`. Interest at such a rate is therefore outside the model.
- Forms.ParseField: `float()` and `int(float())` are library parsers. They enter as the literal readers in `Forms.Literals`, with None where they raise ValueError. So NaN, infinities and values too large for `int()` are not modelled.
- `format_money` is modelled on whole cents. Float values that are not whole cents, and the sign of a negative zero, are not modelled.
- A payment date can only be out of range through its year. A year below 1 cannot occur, because the start date is valid and the offsets are non-negative.
