/**
  The annuity schedule of `calculate_mortgage`. Amounts are whole cents;
  the down-payment percentage and the annual rate are basis points
  (hundredths of a percent), so 12.5 % is 1250.
 */
module Mortgage {
  import opened Wrappers
  import opened Money
  import opened Calendar

  /** `MortgageInput`: the figures the form hands to the engine. */
  datatype MortgageInput = MortgageInput(
    principal: int,           // cents
    downPayment: int,         // cents
    downPaymentPercent: int,  // basis points
    years: int,
    annualRate: int)          // basis points

  /** One row of the payment schedule. */
  datatype Entry = Entry(
    month: int,
    payment: int,
    interest: int,
    principal: int,
    balance: int,
    date: Date)

  /** `MortgageResult`. `requiredIncome` is in cents, exact. */
  datatype MortgageResult = MortgageResult(
    overpayment: int,
    totalPaid: int,
    monthlyPayment: int,
    loanAmount: int,
    requiredIncome: real,
    schedule: seq<Entry>,
    totalInterest: int)

  /**
    The exceptions the calculation can raise: three ValueErrors, and the
    OverflowError or ZeroDivisionError of the floating-point annuity formula.
   */
  datatype MortgageError =
    | TermNotPositive       // months <= 0
    | DownPaymentTooLarge   // loan amount <= 0
    | PaymentNotComputable  // the annuity formula overflows or divides by zero
    | DateOutOfRange        // a payment date past year 9999

  /** Basis points of an annual rate per unit of a monthly rate: 12 months, 100 %, 100 basis points. */
  const MonthlyRateDenominator := 120000

  function Months(data: MortgageInput): int
  {
    data.years * 12
  }

  /**
    The down payment: the fixed amount when it is positive, otherwise the
    percentage of the principal (rounded down to a whole cent), otherwise 0.
   */
  function DownPaymentValue(data: MortgageInput): (v: int)
    ensures data.downPayment > 0 ==> v == data.downPayment
    ensures data.downPayment <= 0 && data.downPaymentPercent > 0 ==>
      v * 10000 <= data.principal * data.downPaymentPercent < (v + 1) * 10000
    ensures data.downPayment <= 0 && data.downPaymentPercent <= 0 ==> v == 0
  {
    if data.downPayment > 0 then data.downPayment
    else if data.downPaymentPercent > 0 then data.principal * data.downPaymentPercent / 10000
    else 0
  }

  function LoanAmount(data: MortgageInput): int
  {
    data.principal - DownPaymentValue(data)
  }

  /**
    The interest charged for one month on `balance`: the balance times the
    monthly rate rounded to the cent, and exactly 0 unless the rate is positive.
   */
  function MonthlyInterest(balance: int, annualRate: int): (i: int)
    ensures annualRate <= 0 ==> i == 0
    ensures annualRate > 0 ==> IsRoundedQuotient(balance * annualRate, MonthlyRateDenominator, i)
  {
    if annualRate > 0 then RoundHalfEven(balance * annualRate, MonthlyRateDenominator) else 0
  }

  /** The monthly interest at `annualRate`, as a function of the balance. */
  function InterestRule(annualRate: int): (rule: int -> int)
    ensures forall b :: rule(b) == MonthlyInterest(b, annualRate)
  {
    b => MonthlyInterest(b, annualRate)
  }

  /**
    The rounded base payment. At rate 0 it is the loan spread evenly over the
    months, rounded to the cent; otherwise it is the rounded annuity payment,
    which is computed in floating point and enters the model as `annuityPayment`:
    None where that computation raises, at a rate whose growth factor
    overflows or does not move 1.0.
   */
  function BasePayment(loan: int, months: int, annualRate: int, annuityPayment: Option<int>): (p: Option<int>)
    requires months > 0
    ensures annualRate == 0 ==> p.Some? && IsRoundedQuotient(loan, months, p.value)
    ensures annualRate != 0 ==> p == annuityPayment
  {
    if annualRate == 0 then Some(RoundHalfEven(loan, months)) else annuityPayment
  }

  /** The payment dates: period j falls `j - 1` months after `start`. */
  function PaymentDates(start: Date, months: nat): (dates: seq<Date>)
    requires 1 <= start.month <= 12
    ensures |dates| == months
    ensures forall i :: 0 <= i < months ==> dates[i] == AddMonths(start, i)
  {
    seq(months, i requires 0 <= i => AddMonths(start, i))
  }

  /**
    The schedule row for period k + 1, due on `dates[k]`, when `balance` is owed before it. It
    pays `payment`, split into the month's interest and the rest as
    principal; the last period instead repays the whole remaining balance
    plus its interest. The row shows what is left owed, never below zero.
   */
  function Row(balance: int, k: nat, months: nat, payment: int, interestOn: int -> int, dates: seq<Date>): (e: Entry)
    requires k < |dates|
    ensures e.month == k + 1 && e.date == dates[k]
    ensures e.interest == interestOn(balance)
    ensures e.payment == e.interest + e.principal
    ensures k + 1 == months ==> e.principal == balance
    ensures k + 1 != months ==> e.payment == payment
    ensures e.balance == Max(balance - e.principal, 0)
  {
    var interest := interestOn(balance);
    var isLast := k + 1 == months;
    var principal := if isLast then balance else payment - interest;
    var actual := if isLast then principal + interest else payment;
    Entry(k + 1, actual, interest, principal, Max(balance - principal, 0), dates[k])
  }

  /**
    The schedule rows for periods k + 1 through `months`, when `balance` is
    still owed before period k + 1; period j is due on `dates[j - 1]`.
   */
  function Periods(balance: int, k: nat, months: nat, payment: int, interestOn: int -> int, dates: seq<Date>): (p: seq<Entry>)
    requires months <= |dates|
    ensures |p| == if k < months then months - k else 0
    decreases months - k
  {
    if k >= months then []
    else
      var e := Row(balance, k, months, payment, interestOn, dates);
      [e] + Periods(balance - e.principal, k + 1, months, payment, interestOn, dates)
  }

  datatype Column = PaymentColumn | InterestColumn | PrincipalColumn

  function Amount(e: Entry, c: Column): int
  {
    match c
    case PaymentColumn => e.payment
    case InterestColumn => e.interest
    case PrincipalColumn => e.principal
  }

  /** The total of one column of a schedule. */
  function Sum(s: seq<Entry>, c: Column): int
  {
    if s == [] then 0 else Amount(s[0], c) + Sum(s[1..], c)
  }

  lemma {:induction false} SumAppend(s: seq<Entry>, t: seq<Entry>, c: Column)
    ensures Sum(s + t, c) == Sum(s, c) + Sum(t, c)
  {
    if s == [] {
      assert s + t == t;
    } else {
      assert (s + t)[0] == s[0];
      assert (s + t)[1..] == s[1..] + t;
      SumAppend(s[1..], t, c);
    }
  }

  lemma {:induction false} SumCons(e: Entry, s: seq<Entry>, c: Column)
    ensures Sum([e] + s, c) == Amount(e, c) + Sum(s, c)
  {
    assert ([e] + s)[1..] == s;
  }

  lemma {:induction false} SumPrefixCons(e: Entry, s: seq<Entry>, i: nat, c: Column)
    requires 1 <= i <= |s| + 1
    ensures Sum(([e] + s)[..i], c) == Amount(e, c) + Sum(s[..i - 1], c)
  {
    assert ([e] + s)[..i] == [e] + s[..i - 1];
    SumCons(e, s[..i - 1], c);
  }

  /** Each row's payment is its interest plus its principal, so the payments total the two other columns. */
  lemma {:induction false} SumOfPayments(s: seq<Entry>)
    requires forall i :: 0 <= i < |s| ==> s[i].payment == s[i].interest + s[i].principal
    ensures Sum(s, PaymentColumn) == Sum(s, InterestColumn) + Sum(s, PrincipalColumn)
  {
    if s != [] {
      SumOfPayments(s[1..]);
    }
  }

  /** A column that is zero in every row sums to zero. */
  lemma {:induction false} SumOfZeros(s: seq<Entry>, c: Column)
    requires forall i :: 0 <= i < |s| ==> Amount(s[i], c) == 0
    ensures Sum(s, c) == 0
  {
    if s != [] {
      SumOfZeros(s[1..], c);
    }
  }

  /** Unfolding Periods one row: row i + 1 of the schedule is row i of the rest. */
  lemma {:induction false} PeriodsUnfold(balance: int, k: nat, months: nat, payment: int, interestOn: int -> int, dates: seq<Date>)
    requires months <= |dates|
    requires k < months
    ensures var p := Periods(balance, k, months, payment, interestOn, dates);
      var e := Row(balance, k, months, payment, interestOn, dates);
      var q := Periods(balance - e.principal, k + 1, months, payment, interestOn, dates);
      && p == [e] + q
      && p[0] == e
      && p[1..] == q
  {
  }

  /** One row per remaining period, row i being period k + i + 1, due on `dates[k + i]`. */
  lemma {:induction false} PeriodsNumbering(balance: int, k: nat, months: nat, payment: int, interestOn: int -> int, dates: seq<Date>)
    requires months <= |dates|
    requires k <= months
    ensures var p := Periods(balance, k, months, payment, interestOn, dates);
      && |p| == months - k
      && forall i :: 0 <= i < |p| ==> p[i].month == k + i + 1 && p[i].date == dates[k + i]
    decreases months - k
  {
    if k < months {
      var p := Periods(balance, k, months, payment, interestOn, dates);
      var e := Row(balance, k, months, payment, interestOn, dates);
      var q := Periods(balance - e.principal, k + 1, months, payment, interestOn, dates);
      PeriodsUnfold(balance, k, months, payment, interestOn, dates);
      PeriodsNumbering(balance - e.principal, k + 1, months, payment, interestOn, dates);
      forall i | 0 <= i < |p|
        ensures p[i].month == k + i + 1 && p[i].date == dates[k + i]
      {
        if i > 0 {
          assert p[i] == q[i - 1];
        }
      }
    }
  }

  /**
    Row i of the schedule is the row of period k + i + 1 for the amount still
    owed after the principal of the rows before it.
   */
  lemma {:induction false} PeriodsRowAt(balance: int, k: nat, months: nat, payment: int, interestOn: int -> int, dates: seq<Date>, i: nat)
    requires months <= |dates|
    requires k + i < months
    ensures var p := Periods(balance, k, months, payment, interestOn, dates);
      && i < |p|
      && p[i] == Row(balance - Sum(p[..i], PrincipalColumn), k + i, months, payment, interestOn, dates)
    decreases i
  {
    var p := Periods(balance, k, months, payment, interestOn, dates);
    var e := Row(balance, k, months, payment, interestOn, dates);
    var rest := balance - e.principal;
    var q := Periods(rest, k + 1, months, payment, interestOn, dates);
    PeriodsUnfold(balance, k, months, payment, interestOn, dates);
    PeriodsNumbering(balance, k, months, payment, interestOn, dates);
    if i == 0 {
      assert p[..0] == [];
    } else {
      PeriodsRowAt(rest, k + 1, months, payment, interestOn, dates, i - 1);
      SumPrefixCons(e, q, i, PrincipalColumn);
      assert p[i] == q[i - 1];
    }
  }


  /**
    One step of the payment loop: when the rows built so far are the first rows
    of the schedule, the balance is what they leave unpaid and the running
    interest is their interest total, appending the next period's row keeps
    all three true.
   */
  lemma {:induction false} ScheduleExtend(loan: int, months: nat, payment: int, interestOn: int -> int, dates: seq<Date>,
                       built: seq<Entry>, balance: int, totalInterest: int)
    requires months <= |dates| && |built| < months
    requires built == Periods(loan, 0, months, payment, interestOn, dates)[..|built|]
    requires balance == loan - Sum(built, PrincipalColumn)
    requires totalInterest == Sum(built, InterestColumn)
    ensures var e := Row(balance, |built|, months, payment, interestOn, dates);
      && built + [e] == Periods(loan, 0, months, payment, interestOn, dates)[..|built| + 1]
      && balance - e.principal == loan - Sum(built + [e], PrincipalColumn)
      && totalInterest + e.interest == Sum(built + [e], InterestColumn)
  {
    var p := Periods(loan, 0, months, payment, interestOn, dates);
    var j := |built|;
    PeriodsRowAt(loan, 0, months, payment, interestOn, dates, j);
    assert p[..j + 1] == p[..j] + [p[j]];
    SumAppend(built, [p[j]], InterestColumn);
    SumAppend(built, [p[j]], PrincipalColumn);
  }

  /**
    The principal of all remaining rows repays `balance` exactly, and the last
    row leaves nothing owed: the last row repays whatever the rows before it
    left unpaid.
   */
  lemma {:induction false} PeriodsRepay(balance: int, k: nat, months: nat, payment: int, interestOn: int -> int, dates: seq<Date>)
    requires months <= |dates|
    requires k < months
    ensures var p := Periods(balance, k, months, payment, interestOn, dates);
      && |p| == months - k
      && Sum(p, PrincipalColumn) == balance
      && p[|p| - 1].balance == 0
  {
    var p := Periods(balance, k, months, payment, interestOn, dates);
    var n := months - k - 1;
    PeriodsRowAt(balance, k, months, payment, interestOn, dates, n);
    assert p == p[..n] + [p[n]];
    SumAppend(p[..n], [p[n]], PrincipalColumn);
  }

  /**
    The interest of each month is charged on what is still owed: the loan
    less the principal repaid in the months before.
   */
  lemma {:induction false} ScheduleInterest(loan: int, months: nat, payment: int, interestOn: int -> int, dates: seq<Date>)
    requires months <= |dates| && months > 0
    ensures var p := Periods(loan, 0, months, payment, interestOn, dates);
      && |p| == months
      && forall i :: 0 <= i < months ==>
           p[i].interest == interestOn(loan - Sum(p[..i], PrincipalColumn))
  {
    var p := Periods(loan, 0, months, payment, interestOn, dates);
    PeriodsNumbering(loan, 0, months, payment, interestOn, dates);
    forall i | 0 <= i < months
      ensures p[i].interest == interestOn(loan - Sum(p[..i], PrincipalColumn))
    {
      PeriodsRowAt(loan, 0, months, payment, interestOn, dates, i);
    }
  }

  /**
    What the schedule of a loan promises: one row per month, numbered from 1
    and dated in turn by `dates`; every row but the last pays the
    base payment, the last pays off the balance; the principal column repays
    the loan exactly, nothing is owed at the end, and the payments total the
    loan plus the interest.
   */
  lemma {:induction false} ScheduleFacts(loan: int, months: nat, payment: int, interestOn: int -> int, dates: seq<Date>)
    requires months <= |dates| && months > 0
    ensures var p := Periods(loan, 0, months, payment, interestOn, dates);
      && |p| == months
      && (forall i :: 0 <= i < months ==> p[i].month == i + 1 && p[i].date == dates[i])
      && (forall i :: 0 <= i < months - 1 ==> p[i].payment == payment && p[i].principal == payment - p[i].interest)
      && p[months - 1].payment == p[months - 1].principal + p[months - 1].interest
      && Sum(p, PrincipalColumn) == loan
      && p[months - 1].balance == 0
      && Sum(p, PaymentColumn) == loan + Sum(p, InterestColumn)
  {
    PeriodsNumbering(loan, 0, months, payment, interestOn, dates);
    PeriodsPayments(loan, months, payment, interestOn, dates);
    PeriodsRepay(loan, 0, months, payment, interestOn, dates);
    PeriodsTotalPaid(loan, months, payment, interestOn, dates);
  }

  /** Every row's payment is its interest plus its principal, and every row but the last pays `payment`. */
  lemma {:induction false} PeriodsPayments(loan: int, months: nat, payment: int, interestOn: int -> int, dates: seq<Date>)
    requires months <= |dates|
    ensures var p := Periods(loan, 0, months, payment, interestOn, dates);
      && (forall i :: 0 <= i < |p| ==> p[i].payment == p[i].interest + p[i].principal)
      && (forall i :: 0 <= i < months - 1 ==> p[i].payment == payment && p[i].principal == payment - p[i].interest)
  {
    var p := Periods(loan, 0, months, payment, interestOn, dates);
    forall i | 0 <= i < months
      ensures i < months - 1 ==> p[i].payment == payment && p[i].principal == payment - p[i].interest
      ensures p[i].payment == p[i].interest + p[i].principal
    {
      PeriodsRowAt(loan, 0, months, payment, interestOn, dates, i);
    }
  }

  /** A schedule's payments total the principal it repays plus its interest: the loan plus the interest. */
  lemma {:induction false} PeriodsTotalPaid(loan: int, months: nat, payment: int, interestOn: int -> int, dates: seq<Date>)
    requires months <= |dates| && months > 0
    ensures var p := Periods(loan, 0, months, payment, interestOn, dates);
      Sum(p, PaymentColumn) == loan + Sum(p, InterestColumn)
  {
    var p := Periods(loan, 0, months, payment, interestOn, dates);
    PeriodsPayments(loan, months, payment, interestOn, dates);
    PeriodsRepay(loan, 0, months, payment, interestOn, dates);
    SumOfPayments(p);
  }

  /** The last payment date, `months - 1` months after the start. */
  function LastDate(data: MortgageInput, start: Date): Date
    requires 1 <= start.month <= 12
  {
    AddMonths(start, Months(data) - 1)
  }

  /** Every payment date is a real calendar date when the last one is. */
  lemma {:induction false} ScheduleDatesValid(start: Date, months: nat)
    requires ValidDate(start) && months > 0
    requires AddMonths(start, months - 1).year <= MaxYear
    ensures forall i :: 0 <= i < months ==> ValidDate(AddMonths(start, i))
  {
    forall i | 0 <= i < months
      ensures ValidDate(AddMonths(start, i))
    {
      AddZeroMonths(start);
      AddMonthsYearMonotone(start, 0, i);
      AddMonthsYearMonotone(start, i, months - 1);
    }
  }

  /**
    The payment loop of `calculate_mortgage`: walks the months, charging each
    month's interest on the remaining balance, building one row per month and
    summing the interest. It fails as the source does when a payment date
    falls past the last year a date can hold.
   */
  method PaymentLoop(loanAmount: int, months: nat, monthlyPayment: int, annualRate: int, start: Date)
    returns (r: Result<(seq<Entry>, int), MortgageError>)
    requires ValidDate(start) && months > 0
    ensures r.Failure? <==> AddMonths(start, months - 1).year > MaxYear
    ensures r.Failure? ==> r.error == DateOutOfRange
    ensures r.Success? ==>
      && r.value.0 == Periods(loanAmount, 0, months, monthlyPayment, InterestRule(annualRate), PaymentDates(start, months))
      && r.value.1 == Sum(r.value.0, InterestColumn)
  {
    ghost var dates := PaymentDates(start, months);
    ghost var interestOn := InterestRule(annualRate);
    ghost var whole := Periods(loanAmount, 0, months, monthlyPayment, interestOn, dates);
    PeriodsNumbering(loanAmount, 0, months, monthlyPayment, interestOn, dates);
    var schedule: seq<Entry> := [];
    var balance := loanAmount;
    var totalInterest := 0;

    var month := 1;
    while month <= months
      invariant 1 <= month <= months + 1 && |schedule| == month - 1
      invariant schedule == whole[..month - 1]
      invariant balance == loanAmount - Sum(schedule, PrincipalColumn)
      invariant totalInterest == Sum(schedule, InterestColumn)
      invariant month > 1 ==> AddMonths(start, month - 2).year <= MaxYear
    {
      ghost var row := Row(balance, month - 1, months, monthlyPayment, interestOn, dates);
      ScheduleExtend(loanAmount, months, monthlyPayment, interestOn, dates, schedule, balance, totalInterest);
      var interest := MonthlyInterest(balance, annualRate);
      assert interest == row.interest;
      var principalPayment := monthlyPayment - interest;
      var paymentActual;
      if month == months {
        // the last payment closes the remaining balance
        principalPayment := balance;
        paymentActual := principalPayment + interest;
      } else {
        paymentActual := monthlyPayment;
      }

      balance := balance - principalPayment;
      totalInterest := totalInterest + interest;

      var paymentDate := AddMonths(start, month - 1);
      if paymentDate.year > MaxYear {
        // `date(year, month, day)` raises
        AddMonthsYearMonotone(start, month - 1, months - 1);
        return Failure(DateOutOfRange);
      }

      assert paymentDate == row.date;
      var entry := Entry(month, paymentActual, interest, principalPayment, Max(balance, 0), paymentDate);
      assert entry == row;
      schedule := schedule + [entry];
      month := month + 1;
    }
    assert schedule == whole;
    r := Success((schedule, totalInterest));
  }

  /**
    `calculate_mortgage`. The start date (today's date in the source) and the
    rounded annuity payment for a non-zero rate are parameters; the payment
    is None where the floating-point formula raises.
   */
  method CalculateMortgage(data: MortgageInput, start: Date, annuityPayment: Option<int>)
    returns (r: Result<MortgageResult, MortgageError>)
    requires ValidDate(start)
    ensures r == Failure(TermNotPositive) <==> Months(data) <= 0
    ensures r == Failure(DownPaymentTooLarge) <==> Months(data) > 0 && LoanAmount(data) <= 0
    ensures r == Failure(PaymentNotComputable) <==>
      Months(data) > 0 && LoanAmount(data) > 0 && data.annualRate != 0 && annuityPayment.None?
    ensures r == Failure(DateOutOfRange) <==>
      && Months(data) > 0 && LoanAmount(data) > 0
      && (data.annualRate == 0 || annuityPayment.Some?)
      && LastDate(data, start).year > MaxYear
    ensures r.Success? ==>
      var res, months, loan := r.value, Months(data), LoanAmount(data);
      && months > 0 && loan > 0
      && res.loanAmount == loan
      && Some(res.monthlyPayment) == BasePayment(loan, months, data.annualRate, annuityPayment)
      && res.schedule == Periods(loan, 0, months, res.monthlyPayment, InterestRule(data.annualRate), PaymentDates(start, months))
      && res.requiredIncome == res.monthlyPayment as real / 0.3
      // one row per month, numbered 1..months, each dated month - 1 months after the start
      && |res.schedule| == months
      && (forall i :: 0 <= i < months ==>
            && res.schedule[i].month == i + 1
            && res.schedule[i].date == AddMonths(start, i)
            && ValidDate(res.schedule[i].date))
      // the principal repays the loan exactly and nothing is owed at the end
      && Sum(res.schedule, PrincipalColumn) == loan
      && res.schedule[months - 1].balance == 0
      // the totals are the column sums
      && res.totalInterest == Sum(res.schedule, InterestColumn)
      && res.overpayment == res.totalInterest
      && res.totalPaid == Sum(res.schedule, PaymentColumn)
      && res.totalPaid == loan + res.totalInterest
  {
    var months := data.years * 12;
    var downPaymentValue := DownPaymentValue(data);
    var loanAmount := data.principal - downPaymentValue;
    assert months == Months(data) && loanAmount == LoanAmount(data);

    if months <= 0 {
      return Failure(TermNotPositive);
    }
    if loanAmount <= 0 {
      return Failure(DownPaymentTooLarge);
    }

    var payment := BasePayment(loanAmount, months, data.annualRate, annuityPayment);
    if payment.None? {
      // `(1 + monthly_rate) ** months` overflows, or `factor - 1` is zero
      return Failure(PaymentNotComputable);
    }
    var monthlyPayment := payment.value;

    var loop := PaymentLoop(loanAmount, months, monthlyPayment, data.annualRate, start);
    if loop.Failure? {
      return Failure(loop.error);
    }
    var (schedule, totalInterest) := loop.value;

    var totalPaid := Sum(schedule, PaymentColumn);
    var overpayment := totalInterest;
    var requiredIncome := monthlyPayment as real / 0.3;

    ghost var dates := PaymentDates(start, months);
    ScheduleFacts(loanAmount, months, monthlyPayment, InterestRule(data.annualRate), dates);
    ScheduleDatesValid(start, months);
    assert forall i :: 0 <= i < months ==> dates[i] == AddMonths(start, i);

    r := Success(MortgageResult(
      overpayment := overpayment,
      totalPaid := totalPaid,
      monthlyPayment := monthlyPayment,
      loanAmount := loanAmount,
      requiredIncome := requiredIncome,
      schedule := schedule,
      totalInterest := totalInterest));
  }

  /** At a zero or negative rate no row charges interest, so the borrower pays back exactly the loan. */
  lemma {:induction false} InterestFreeSchedule(loan: int, months: nat, payment: int, annualRate: int, dates: seq<Date>)
    requires months <= |dates| && months > 0 && annualRate <= 0
    ensures var p := Periods(loan, 0, months, payment, InterestRule(annualRate), dates);
      && (forall i :: 0 <= i < |p| ==> p[i].interest == 0)
      && Sum(p, InterestColumn) == 0
      && Sum(p, PaymentColumn) == loan
  {
    var interestOn := InterestRule(annualRate);
    var p := Periods(loan, 0, months, payment, interestOn, dates);
    ScheduleInterest(loan, months, payment, interestOn, dates);
    forall i | 0 <= i < |p|
      ensures Amount(p[i], InterestColumn) == 0
    {
    }
    SumOfZeros(p, InterestColumn);
    ScheduleFacts(loan, months, payment, interestOn, dates);
  }
}
