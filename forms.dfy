/**
  `parse_form`: reading the five form fields and the ordered list of checks
  that reject an input before any calculation. Amounts are cents, the
  down-payment percentage and the annual rate basis points, as in `Mortgage`.
 */
module Forms {
  import opened Wrappers
  import opened Mortgage

  /** The characters Python's `str.isspace` accepts, which `strip()` removes. */
  predicate IsSpace(c: char)
  {
    || c == ' '
    || ('\t' <= c <= '\r')
    || ('\U{1C}' <= c <= '\U{1F}')
    || c == '\U{85}' || c == '\U{A0}' || c == '\U{1680}'
    || ('\U{2000}' <= c <= '\U{200A}')
    || c == '\U{2028}' || c == '\U{2029}' || c == '\U{202F}' || c == '\U{205F}' || c == '\U{3000}'
  }

  /** Every character of `s` is white space (vacuously so for ""). */
  predicate AllSpace(s: string)
  {
    forall i :: 0 <= i < |s| ==> IsSpace(s[i])
  }

  /** `replace(" ", "")`: drops every plain space and keeps the rest in order. */
  function RemoveSpaces(s: string): string
  {
    if s == [] then []
    else if s[0] == ' ' then RemoveSpaces(s[1..])
    else [s[0]] + RemoveSpaces(s[1..])
  }

  /** Removing spaces keeps exactly the characters other than a space, and leaves a space-free text alone. */
  lemma {:induction false} RemoveSpacesKeeps(s: string)
    ensures forall c :: c in RemoveSpaces(s) <==> c in s && c != ' '
    ensures ' ' !in s ==> RemoveSpaces(s) == s
  {
    if s != [] {
      RemoveSpacesKeeps(s[1..]);
      assert s == [s[0]] + s[1..];
    }
  }

  /** Removing spaces works piecewise, so it keeps the order of the other characters. */
  lemma {:induction false} RemoveSpacesAppend(s: string, t: string)
    ensures RemoveSpaces(s + t) == RemoveSpaces(s) + RemoveSpaces(t)
  {
    if s == [] {
      assert s + t == t;
    } else {
      var u := s[1..];
      assert (s + t)[0] == s[0];
      assert (s + t)[1..] == u + t;
      RemoveSpacesAppend(u, t);
      if s[0] == ' ' {
        assert RemoveSpaces(s + t) == RemoveSpaces(u + t);
        assert RemoveSpaces(s) == RemoveSpaces(u);
      } else {
        assert RemoveSpaces(s + t) == [s[0]] + RemoveSpaces(u + t);
        assert RemoveSpaces(s) == [s[0]] + RemoveSpaces(u);
        assert [s[0]] + (RemoveSpaces(u) + RemoveSpaces(t)) == ([s[0]] + RemoveSpaces(u)) + RemoveSpaces(t);
      }
    }
  }

  /** `replace(",", ".")`: a decimal comma becomes a decimal point, nothing else moves. */
  function ReplaceCommas(s: string): string
  {
    seq(|s|, i requires 0 <= i < |s| => if s[i] == ',' then '.' else s[i])
  }

  /** `lstrip()`: the suffix left after the leading white space. */
  function TrimStart(s: string): string
  {
    if s != [] && IsSpace(s[0]) then TrimStart(s[1..]) else s
  }

  /** What `lstrip()` removes is white space, and what it keeps is a suffix starting with a non-space. */
  lemma {:induction false} TrimStartSpec(s: string)
    ensures var r := TrimStart(s);
      && |r| <= |s| && r == s[|s| - |r|..]
      && (r == [] || !IsSpace(r[0]))
      && AllSpace(s[..|s| - |r|])
  {
    if s != [] && IsSpace(s[0]) {
      TrimStartSpec(s[1..]);
      var r := TrimStart(s);
      assert s[..|s| - |r|] == [s[0]] + s[1..][..|s| - 1 - |r|];
    }
  }

  /** `rstrip()`: the prefix left before the trailing white space. */
  function TrimEnd(s: string): string
  {
    if s != [] && IsSpace(s[|s| - 1]) then TrimEnd(s[..|s| - 1]) else s
  }

  /** What `rstrip()` removes is white space, and what it keeps is a prefix ending with a non-space. */
  lemma {:induction false} TrimEndSpec(s: string)
    ensures var r := TrimEnd(s);
      && |r| <= |s| && r == s[..|r|]
      && (r == [] || !IsSpace(r[|r| - 1]))
      && AllSpace(s[|r|..])
  {
    if s != [] && IsSpace(s[|s| - 1]) {
      var t := s[..|s| - 1];
      TrimEndSpec(t);
      var r := TrimEnd(s);
      assert s[|r|..] == t[|r|..] + [s[|s| - 1]];
    }
  }

  /** `strip()`: `s` without its leading and its trailing white space. */
  function Strip(s: string): string
  {
    TrimEnd(TrimStart(s))
  }

  /**
    What `strip()` keeps is a piece of `s` that starts and ends with a
    non-space, and what it drops around it is white space; it keeps nothing
    exactly when `s` is all white space.
   */
  lemma {:induction false} StripSpec(s: string)
    ensures var r := Strip(s);
      && (r != [] ==> !IsSpace(r[0]) && !IsSpace(r[|r| - 1]))
      && (r == [] <==> AllSpace(s))
      && exists a :: 0 <= a <= |s| - |r| && r == s[a..a + |r|]
          && AllSpace(s[..a]) && AllSpace(s[a + |r|..])
  {
    var t := TrimStart(s);
    var r := TrimEnd(t);
    TrimStartSpec(s);
    TrimEndSpec(t);
    var a := |s| - |t|;
    assert s[a..a + |r|] == t[..|r|];
    assert s[a + |r|..] == t[|r|..];
    if r == [] {
      assert t == [];
      assert s[..a] == s;
    }
  }

  /** The clean-up of `parse_float` and `parse_int`: drop spaces, comma to point, strip. */
  function Clean(s: string): string
  {
    Strip(ReplaceCommas(RemoveSpaces(s)))
  }

  /** A field cleans up to "" exactly when it holds nothing but white space. */
  lemma {:induction false} CleanIsEmpty(s: string)
    ensures Clean(s) == [] <==> AllSpace(s)
  {
    var u := RemoveSpaces(s);
    var t := ReplaceCommas(u);
    RemoveSpacesKeeps(s);
    StripSpec(t);
    assert AllSpace(t) <==> AllSpace(u) by {
      assert forall i :: 0 <= i < |u| ==> (IsSpace(t[i]) <==> IsSpace(u[i]));
    }
    if AllSpace(u) {
      forall i | 0 <= i < |s|
        ensures IsSpace(s[i])
      {
        if s[i] != ' ' {
          assert s[i] in u;
          var j :| 0 <= j < |u| && u[j] == s[i];
        }
      }
    } else {
      var j :| 0 <= j < |u| && !IsSpace(u[j]);
      assert u[j] in s;
      var i :| 0 <= i < |s| && s[i] == u[j];
    }
  }

  /** Cleaning leaves no plain space and no comma. */
  lemma {:induction false} CleanHasNoSpaceOrComma(s: string)
    ensures ' ' !in Clean(s) && ',' !in Clean(s)
  {
    var u := RemoveSpaces(s);
    var t := ReplaceCommas(u);
    var r := Clean(s);
    RemoveSpacesKeeps(s);
    StripSpec(t);
    var a :| 0 <= a <= |t| - |r| && r == t[a..a + |r|] && AllSpace(t[..a]) && AllSpace(t[a + |r|..]);
    forall i | 0 <= i < |r|
      ensures r[i] != ' ' && r[i] != ','
    {
      assert r[i] == t[a + i];
      assert u[a + i] in u;
    }
  }

  /** `form.get(key, "")`. */
  function FormValue(form: map<string, string>, key: string): (v: string)
    ensures key in form ==> v == form[key]
    ensures key !in form ==> v == ""
  {
    if key in form then form[key] else ""
  }

  /**
    `parse_float` / `parse_int`: a field that is blank or holds only white
    space reads as 0; otherwise the cleaned text goes to `literal`, which
    stands for `float()` or `int(float())` and gives None where they raise
    ValueError.
   */
  function ParseField(raw: string, literal: string -> Option<int>): Option<int>
  {
    var cleaned := Clean(raw);
    if cleaned == "" then Some(0) else literal(cleaned)
  }

  /** A blank field reads as 0 and any other goes to the literal reader, cleaned and non-empty. */
  lemma {:induction false} ParseFieldBlank(raw: string, literal: string -> Option<int>)
    ensures AllSpace(raw) ==> ParseField(raw, literal) == Some(0)
    ensures !AllSpace(raw) ==> Clean(raw) != [] && ParseField(raw, literal) == literal(Clean(raw))
  {
    CleanIsEmpty(raw);
  }

  /** The fields of the form, in the order `parse_form` reads them. */
  datatype Field = Principal | DownPayment | DownPaymentPercent | Years | AnnualRate

  function Key(f: Field): string
  {
    match f
    case Principal => "principal"
    case DownPayment => "down_payment"
    case DownPaymentPercent => "down_payment_percent"
    case Years => "years"
    case AnnualRate => "annual_rate"
  }

  function FieldRank(f: Field): nat
  {
    match f
    case Principal => 0
    case DownPayment => 1
    case DownPaymentPercent => 2
    case Years => 3
    case AnnualRate => 4
  }

  /**
    The literal readers the fields use: amounts in cents, percentages in basis
    points, and whole years (`int(float())`, which truncates).
   */
  datatype Literals = Literals(
    amount: string -> Option<int>,
    percent: string -> Option<int>,
    whole: string -> Option<int>)

  function Reader(lits: Literals, f: Field): string -> Option<int>
  {
    match f
    case Principal => lits.amount
    case DownPayment => lits.amount
    case DownPaymentPercent => lits.percent
    case Years => lits.whole
    case AnnualRate => lits.percent
  }

  /** The value read for field `f`, or None when its literal does not parse. */
  function ReadField(form: map<string, string>, lits: Literals, f: Field): Option<int>
  {
    ParseField(FormValue(form, Key(f)), Reader(lits, f))
  }

  /** The checks of `parse_form`, in the order it applies them. */
  datatype Rule =
    | PrincipalNotPositive
    | DownPaymentNegative
    | PercentNegative
    | PercentTooLarge
    | BothDownPayments
    | DownPaymentNotBelowPrincipal
    | YearsNotPositive
    | RateNegative

  function Rank(q: Rule): nat
  {
    match q
    case PrincipalNotPositive => 0
    case DownPaymentNegative => 1
    case PercentNegative => 2
    case PercentTooLarge => 3
    case BothDownPayments => 4
    case DownPaymentNotBelowPrincipal => 5
    case YearsNotPositive => 6
    case RateNegative => 7
  }

  /** One hundred percent, in basis points. */
  const FullPercent := 10000

  /** Whether `x` breaks rule `q`. */
  predicate Violated(q: Rule, x: MortgageInput)
  {
    match q
    case PrincipalNotPositive => x.principal <= 0
    case DownPaymentNegative => x.downPayment < 0
    case PercentNegative => x.downPaymentPercent < 0
    case PercentTooLarge => x.downPaymentPercent >= FullPercent
    case BothDownPayments => x.downPayment > 0 && x.downPaymentPercent > 0
    case DownPaymentNotBelowPrincipal => x.downPayment >= x.principal
    case YearsNotPositive => x.years <= 0
    case RateNegative => x.annualRate < 0
  }

  /** An input no rule rejects. */
  predicate Admissible(x: MortgageInput)
  {
    && !Violated(PrincipalNotPositive, x)
    && !Violated(DownPaymentNegative, x)
    && !Violated(PercentNegative, x)
    && !Violated(PercentTooLarge, x)
    && !Violated(BothDownPayments, x)
    && !Violated(DownPaymentNotBelowPrincipal, x)
    && !Violated(YearsNotPositive, x)
    && !Violated(RateNegative, x)
  }

  /** The list of rules is complete: admissible means that no rule at all is broken. */
  lemma {:induction false} AdmissibleBreaksNoRule(x: MortgageInput)
    ensures Admissible(x) <==> forall q :: !Violated(q, x)
  {
    if Admissible(x) {
      forall q
        ensures !Violated(q, x)
      {
        match q
        case PrincipalNotPositive =>
        case DownPaymentNegative =>
        case PercentNegative =>
        case PercentTooLarge =>
        case BothDownPayments =>
        case DownPaymentNotBelowPrincipal =>
        case YearsNotPositive =>
        case RateNegative =>
      }
    }
  }

  /**
    The guards of `parse_form`: the input is returned unchanged when no rule
    rejects it; otherwise the error is the first rule, in order, that it
    breaks.
   */
  function Validate(x: MortgageInput): (r: Result<MortgageInput, Rule>)
    ensures r.Success? <==> Admissible(x)
    ensures r.Success? ==> r.value == x
    ensures r.Failure? ==> Violated(r.error, x) && forall q :: Rank(q) < Rank(r.error) ==> !Violated(q, x)
  {
    if x.principal <= 0 then Failure(PrincipalNotPositive)
    else if x.downPayment < 0 then Failure(DownPaymentNegative)
    else if x.downPaymentPercent < 0 then Failure(PercentNegative)
    else if x.downPaymentPercent >= FullPercent then Failure(PercentTooLarge)
    else if x.downPayment > 0 && x.downPaymentPercent > 0 then Failure(BothDownPayments)
    else if x.downPayment >= x.principal then Failure(DownPaymentNotBelowPrincipal)
    else if x.years <= 0 then Failure(YearsNotPositive)
    else if x.annualRate < 0 then Failure(RateNegative)
    else Success(x)
  }

  /** Why a form is turned away: a field that is not a number, or a broken rule. */
  datatype FormError = NotANumber(field: Field) | Rejected(rule: Rule)

  /** Whether every field reads as a number. */
  predicate AllRead(form: map<string, string>, lits: Literals)
  {
    && ReadField(form, lits, Principal).Some?
    && ReadField(form, lits, DownPayment).Some?
    && ReadField(form, lits, DownPaymentPercent).Some?
    && ReadField(form, lits, Years).Some?
    && ReadField(form, lits, AnnualRate).Some?
  }

  /** Whether every field read before `f` reads as a number. */
  predicate ReadBefore(form: map<string, string>, lits: Literals, f: Field)
  {
    && (FieldRank(f) > 0 ==> ReadField(form, lits, Principal).Some?)
    && (FieldRank(f) > 1 ==> ReadField(form, lits, DownPayment).Some?)
    && (FieldRank(f) > 2 ==> ReadField(form, lits, DownPaymentPercent).Some?)
    && (FieldRank(f) > 3 ==> ReadField(form, lits, Years).Some?)
  }

  /** The input a form gives once all five fields have been read. */
  function FormInput(form: map<string, string>, lits: Literals): MortgageInput
    requires AllRead(form, lits)
  {
    MortgageInput(
      ReadField(form, lits, Principal).value,
      ReadField(form, lits, DownPayment).value,
      ReadField(form, lits, DownPaymentPercent).value,
      ReadField(form, lits, Years).value,
      ReadField(form, lits, AnnualRate).value)
  }

  /** Reads the five fields in order, stopping at the first that is not a number. */
  function ReadFields(form: map<string, string>, lits: Literals): (r: Result<MortgageInput, Field>)
    ensures r.Success? <==> AllRead(form, lits)
    ensures r.Success? ==> r.value == FormInput(form, lits)
    ensures r.Failure? ==> ReadField(form, lits, r.error).None? && ReadBefore(form, lits, r.error)
  {
    var principal := ReadField(form, lits, Principal);
    var downPayment := ReadField(form, lits, DownPayment);
    var percent := ReadField(form, lits, DownPaymentPercent);
    var years := ReadField(form, lits, Years);
    var rate := ReadField(form, lits, AnnualRate);
    if principal.None? then Failure(Principal)
    else if downPayment.None? then Failure(DownPayment)
    else if percent.None? then Failure(DownPaymentPercent)
    else if years.None? then Failure(Years)
    else if rate.None? then Failure(AnnualRate)
    else Success(MortgageInput(principal.value, downPayment.value, percent.value, years.value, rate.value))
  }

  /**
    `parse_form`: a field that is not a number stops it first; once all five
    are read, the checks decide.
   */
  function ParseForm(form: map<string, string>, lits: Literals): (r: Result<MortgageInput, FormError>)
    ensures r.Failure? && r.error.NotANumber? ==>
      ReadField(form, lits, r.error.field).None? && ReadBefore(form, lits, r.error.field)
    ensures AllRead(form, lits) <==> !(r.Failure? && r.error.NotANumber?)
    ensures AllRead(form, lits) ==>
      var x := FormInput(form, lits);
      && (r.Success? <==> Admissible(x))
      && (r.Success? ==> r.value == x)
      && (r.Failure? ==> r.error.Rejected? && Validate(x) == Failure(r.error.rule))
  {
    match ReadFields(form, lits)
    case Failure(f) => Failure(NotANumber(f))
    case Success(x) =>
      match Validate(x)
      case Success(v) => Success(v)
      case Failure(q) => Failure(Rejected(q))
  }

  /** A form whose fields are all blank reads as all zeros, which the first rule rejects. */
  lemma BlankFormIsRejected(lits: Literals)
    ensures ParseForm(map[], lits) == Failure(Rejected(PrincipalNotPositive))
  {
    forall f
      ensures ReadField(map[], lits, f) == Some(0)
    {
      ParseFieldBlank(FormValue(map[], Key(f)), Reader(lits, f));
    }
  }

  lemma {:induction false} FloorBelow(v: int, principal: int, percent: int)
    requires principal > 0 && 0 <= percent < FullPercent
    requires v * FullPercent <= principal * percent
    ensures v < principal
  {
    assert principal * percent < principal * FullPercent by {
      assert principal * FullPercent - principal * percent == principal * (FullPercent - percent);
    }
  }

  /**
    An input the checks let through is one the calculation accepts: the term
    has at least one month, and the down payment, fixed or by percentage,
    leaves a positive loan.
   */
  lemma {:induction false} AdmissibleInputsAreComputable(x: MortgageInput)
    requires Admissible(x)
    ensures Months(x) > 0
    ensures 0 <= DownPaymentValue(x) < x.principal
    ensures LoanAmount(x) > 0
  {
    if x.downPayment <= 0 && x.downPaymentPercent > 0 {
      var v := DownPaymentValue(x);
      assert 0 <= v by {
        assert x.principal * x.downPaymentPercent >= 0;
        assert (v + 1) * FullPercent > 0;
      }
      FloorBelow(v, x.principal, x.downPaymentPercent);
    }
  }

  /** A form `parse_form` accepts never makes the calculation raise for its term or its down payment. */
  lemma {:induction false} AcceptedFormIsComputable(form: map<string, string>, lits: Literals)
    requires ParseForm(form, lits).Success?
    ensures var x := ParseForm(form, lits).value;
      Admissible(x) && Months(x) > 0 && LoanAmount(x) > 0
  {
    AdmissibleInputsAreComputable(ParseForm(form, lits).value);
  }
}
