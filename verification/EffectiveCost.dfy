/** The code-defined calculations of a rule package and the verdicts they give. */
module EffectiveCost {
  import opened CashFlow
  import opened Schedule
  import opened Wrappers

  const OVERDUE_YEAR_DAYS := 360.0

  datatype Field =
    | InterestRate | LoanAmount | LoanFees | LoanTerm | OverdueInterestRate | RepaymentMethod | Lpr

  datatype Verdict =
    | NotTriggered | RiskWarning | Triggered | InsufficientData | Indeterminate

  /** The confirmed values the engine reads, already parsed; None is missing or unparseable. */
  datatype Inputs = Inputs(
    loanAmount: Option<real>,
    loanTerm: Option<int>,
    annualRatePct: Option<real>,
    repaymentMethod: Option<string>,
    mandatoryFees: Option<real>,
    overdueRatePct: Option<real>)

  datatype Figures = Figures(
    netProceeds: real,
    firstPayment: real,
    totalPaid: real,
    costPct: real,
    overdueCostPct: Option<real>)

  datatype Evaluation =
    | Insufficient(missing: seq<Field>)
    /** The annuity formula divides by zero: an exception in the program. */
    | DivisionByZero
    | Compared(verdict: Verdict, ratePct: real, limitPct: real, lprPct: Option<real>)
    | Costed(verdict: Verdict, figures: Figures)

  function VerdictOf(e: Evaluation): Verdict
    requires !e.DivisionByZero?
  {
    match e
    case Insufficient(_) => InsufficientData
    case Compared(verdict, _, _, _) => verdict
    case Costed(verdict, _) => verdict
  }

  function RateFrac(percent: real): real { percent / 100.0 }

  function Absent<T>(field: Field, value: Option<T>): seq<Field> {
    if value.None? then [field] else []
  }

  function MissingForCost(i: Inputs, overdueDays: int): seq<Field> {
    Absent(InterestRate, i.annualRatePct) + Absent(LoanAmount, i.loanAmount)
    + Absent(LoanFees, i.mandatoryFees) + Absent(LoanTerm, i.loanTerm)
    + (if overdueDays > 0 then Absent(OverdueInterestRate, i.overdueRatePct) else [])
    + Absent(RepaymentMethod, i.repaymentMethod)
  }

  predicate Complete(i: Inputs, overdueDays: int) {
    && i.annualRatePct.Some? && i.loanAmount.Some? && i.mandatoryFees.Some? && i.loanTerm.Some?
    && (overdueDays > 0 ==> i.overdueRatePct.Some?)
    && i.repaymentMethod.Some?
  }

  /** The first input, in the order the engine checks them, that keeps a complete set from being costed. */
  function Rejected(i: Inputs): Option<Field>
    requires Complete(i, 0)
  {
    var loan, fees := i.loanAmount.value, i.mandatoryFees.value;
    if i.loanTerm.value <= 0 then Some(LoanTerm)
    else if loan <= 0.0 then Some(LoanAmount)
    else if fees < 0.0 || loan - fees <= 0.0 then Some(LoanFees)
    else if MethodOf(i.repaymentMethod.value).None? then Some(RepaymentMethod)
    else None
  }

  function MonthlyRate(i: Inputs): real
    requires i.annualRatePct.Some?
  {
    RateFrac(i.annualRatePct.value) / 12.0
  }

  predicate Costable(i: Inputs, overdueDays: int) {
    && Complete(i, overdueDays) && Rejected(i).None?
    && ScheduleDefined(MonthlyRate(i), i.loanTerm.value, MethodOf(i.repaymentMethod.value).value)
  }

  function OverdueInterest(i: Inputs, overdueDays: int): real
    requires i.loanAmount.Some? && i.overdueRatePct.Some?
  {
    i.loanAmount.value * RateFrac(i.overdueRatePct.value) * (overdueDays as real) / OVERDUE_YEAR_DAYS
  }

  /** Hand out the loan less the fees deducted from it, then collect the scheduled payments. */
  ghost function NormalFlows(i: Inputs): seq<real>
    requires Costable(i, 0)
  {
    LoanFlows(i.loanAmount.value - i.mandatoryFees.value, ScheduledPayments(i))
  }

  ghost function ScheduledPayments(i: Inputs): seq<real>
    requires Costable(i, 0)
  {
    Payments(i.loanAmount.value, MonthlyRate(i), i.loanTerm.value, MethodOf(i.repaymentMethod.value).value)
  }

  /** The overdue scenario collects the overdue interest one month after the last payment. */
  ghost function OverdueFlows(i: Inputs, overdueDays: int): seq<real>
    requires Costable(i, overdueDays) && overdueDays > 0
  {
    NormalFlows(i) + [OverdueInterest(i, overdueDays)]
  }

  function Annualised(monthlyIrr: real): real { monthlyIrr * 12.0 * 100.0 }

  predicate Over(costPct: real, thresholdPct: real) {
    RateFrac(costPct) > RateFrac(thresholdPct)
  }

  function CostVerdict(costPct: real, overdueCostPct: Option<real>, thresholdPct: real): Verdict {
    if Over(costPct, thresholdPct) then Triggered
    else if overdueCostPct.Some? && Over(overdueCostPct.value, thresholdPct) then RiskWarning
    else NotTriggered
  }

  ghost function CostFigures(i: Inputs, overdueDays: int): Figures
    requires Costable(i, overdueDays)
  {
    FiguresOf(i, overdueDays, ScheduledPayments(i))
  }

  ghost function FiguresOf(i: Inputs, overdueDays: int, payments: seq<real>): Figures
    requires Complete(i, overdueDays) && payments != []
  {
    var netProceeds := i.loanAmount.value - i.mandatoryFees.value;
    var flows := LoanFlows(netProceeds, payments);
    Figures(
      netProceeds, payments[0], Sum(payments), Annualised(Irr(flows)),
      if overdueDays > 0 then Some(Annualised(Irr(flows + [OverdueInterest(i, overdueDays)]))) else None)
  }

  ghost function EffectiveCostLimit(i: Inputs, overdueDays: int, thresholdPct: real): Evaluation {
    if !Complete(i, overdueDays) then Insufficient(MissingForCost(i, overdueDays))
    else if Rejected(i).Some? then Insufficient([Rejected(i).value])
    else if !Costable(i, overdueDays) then DivisionByZero
    else
      var f := CostFigures(i, overdueDays);
      Costed(CostVerdict(f.costPct, f.overdueCostPct, thresholdPct), f)
  }

  /** The computed growth factor is 1 although the rate is not 0. */
  predicate DividesByZero(i: Inputs, growth: Growth)
    requires Complete(i, 0) && Rejected(i).None?
  {
    && MethodOf(i.repaymentMethod.value) == Some(EqualInstallments)
    && MonthlyRate(i) != 0.0 && growth(MonthlyRate(i), i.loanTerm.value) == 1.0
  }

  ghost function PaymentsWith(i: Inputs, growth: Growth): seq<real>
    requires Complete(i, 0) && Rejected(i).None? && !DividesByZero(i, growth)
  {
    var rate, term := MonthlyRate(i), i.loanTerm.value;
    PaymentsFrom(i.loanAmount.value, rate, term, MethodOf(i.repaymentMethod.value).value, growth(rate, term))
  }

  /** The evaluation with the growth factor that some arithmetic, exact or rounding, computes. */
  ghost function CostLimitWith(i: Inputs, overdueDays: int, thresholdPct: real, growth: Growth): Evaluation {
    if !Complete(i, overdueDays) then Insufficient(MissingForCost(i, overdueDays))
    else if Rejected(i).Some? then Insufficient([Rejected(i).value])
    else if DividesByZero(i, growth) then DivisionByZero
    else
      var f := FiguresOf(i, overdueDays, PaymentsWith(i, growth));
      Costed(CostVerdict(f.costPct, f.overdueCostPct, thresholdPct), f)
  }

  /** With the exact factor it is the evaluation that the rest of this module is about. */
  lemma ExactGrowthGivesExactCost(i: Inputs, overdueDays: int, thresholdPct: real)
    ensures CostLimitWith(i, overdueDays, thresholdPct, EXACT_GROWTH) == EffectiveCostLimit(i, overdueDays,
        thresholdPct)
  {
  }

  method EvaluateEffectiveCost(i: Inputs, overdueDays: int, thresholdPct: real, growth: Growth) returns (e: Evaluation)
    ensures e == CostLimitWith(i, overdueDays, thresholdPct, growth)
  {
    var missing := MissingForCost(i, overdueDays);
    if missing != [] {
      return Insufficient(missing);
    }
    var loan, term, fees, rate := i.loanAmount.value, i.loanTerm.value, i.mandatoryFees.value, MonthlyRate(i);
    if term <= 0 {
      return Insufficient([LoanTerm]);
    }
    if loan <= 0.0 {
      return Insufficient([LoanAmount]);
    }
    var netProceeds := loan - fees;
    if fees < 0.0 || netProceeds <= 0.0 {
      return Insufficient([LoanFees]);
    }
    var repayment, factor := MethodOf(i.repaymentMethod.value), growth(rate, term);
    if repayment == Some(EqualInstallments) && rate != 0.0 && factor == 1.0 {
      return DivisionByZero;
    }
    var schedule := BuildSchedule(loan, rate, term, i.repaymentMethod.value, factor);
    if schedule.None? {
      return Insufficient([RepaymentMethod]);
    }
    var payments := schedule.value;
    var flows := LoanFlows(netProceeds, payments);
    var monthlyIrr := IrrMonthly(flows);
    var costPct := Annualised(monthlyIrr);
    var overdueCostPct := None;
    if overdueDays > 0 {
      var overdueMonthly := IrrMonthly(flows + [OverdueInterest(i, overdueDays)]);
      overdueCostPct := Some(Annualised(overdueMonthly));
    }
    return Costed(
      CostVerdict(costPct, overdueCostPct, thresholdPct),
      Figures(netProceeds, payments[0], Sum(payments), costPct, overdueCostPct));
  }

  // ---------------------------------------------------------------------------
  // What the verdict means
  // ---------------------------------------------------------------------------

  /** An overdue scenario never costs less than performing normally, unless its rate is negative. */
  lemma OverdueCostsNoLess(i: Inputs, overdueDays: int)
    requires Costable(i, overdueDays) && overdueDays > 0 && i.overdueRatePct.value >= 0.0
    ensures var f := CostFigures(i, overdueDays);
            f.overdueCostPct.Some? && f.costPct <= f.overdueCostPct.value
  {
    OverdueInterestNonNegative(i, overdueDays);
    IrrExtended(NormalFlows(i), OverdueInterest(i, overdueDays));
  }

  lemma OverdueInterestNonNegative(i: Inputs, overdueDays: int)
    requires i.loanAmount.Some? && i.overdueRatePct.Some?
    requires i.loanAmount.value >= 0.0 && i.overdueRatePct.value >= 0.0 && overdueDays >= 0
    ensures OverdueInterest(i, overdueDays) >= 0.0
  {
    var yearly := i.loanAmount.value * RateFrac(i.overdueRatePct.value);
    assert yearly >= 0.0;
    assert yearly * (overdueDays as real) >= 0.0;
  }

  /** The overdue interest grows with the days, and 360 of them cost the overdue rate. */
  lemma OverdueInterestIsLinear(i: Inputs, m: int, n: int)
    requires i.loanAmount.Some? && i.overdueRatePct.Some?
    ensures OverdueInterest(i, m + n) == OverdueInterest(i, m) + OverdueInterest(i, n)
    ensures OverdueInterest(i, 360) == i.loanAmount.value * i.overdueRatePct.value / 100.0
  {
    var yearly := i.loanAmount.value * RateFrac(i.overdueRatePct.value);
    assert yearly * ((m + n) as real) == yearly * (m as real) + yearly * (n as real);
  }

  /**
   * The overdue scenario is the normal one and one further flow, a month after the last payment: the overdue
   * rate on the loan for the overdue days of a year of 360. So it is worth more by that, discounted that long.
   */
  lemma OverdueScenario(i: Inputs, overdueDays: int, rate: real)
    requires Costable(i, overdueDays) && overdueDays > 0 && rate > -1.0
    ensures var normal, overdue, term := NormalFlows(i), OverdueFlows(i, overdueDays), i.loanTerm.value;
            && |normal| == term + 1 && |overdue| == term + 2 && overdue[..term + 1] == normal
            && overdue[term + 1] * 36000.0 == i.loanAmount.value * i.overdueRatePct.value * (overdueDays as real)
            && Pow(1.0 + rate, term + 1) > 0.0
            && Npv(overdue, rate) == Npv(normal, rate) + overdue[term + 1] / Pow(1.0 + rate, term + 1)
  {
    NpvAppend(NormalFlows(i), OverdueInterest(i, overdueDays), rate);
    var loan, pct, days := i.loanAmount.value, i.overdueRatePct.value, overdueDays as real;
    assert loan * (pct / 100.0) * days / 360.0 * 36000.0 == loan * pct * days;
  }

  /** The figures of an evaluation: what is handed out and paid, and the costs of its flows a year, in percent. */
  lemma FiguresSay(i: Inputs, overdueDays: int)
    requires Costable(i, overdueDays)
    ensures var f, loan, rate, payments := CostFigures(i, overdueDays), i.loanAmount.value, MonthlyRate(i),
                ScheduledPayments(i);
            && rate * 1200.0 == i.annualRatePct.value
            && f.netProceeds + i.mandatoryFees.value == loan
            && |payments| == i.loanTerm.value && f.firstPayment == payments[0]
            && f.totalPaid == loan + InterestCharged(loan, rate, payments)
            && f.costPct == 1200.0 * Irr([-f.netProceeds] + payments)
            && (f.overdueCostPct.Some? <==> overdueDays > 0)
            && (overdueDays > 0 ==> f.overdueCostPct.value == 1200.0 * Irr(OverdueFlows(i, overdueDays)))
  {
    var loan, rate, payments := i.loanAmount.value, MonthlyRate(i), ScheduledPayments(i);
    SchedulesAmortise(loan, rate, i.loanTerm.value, MethodOf(i.repaymentMethod.value).value);
    PaidIsOwedAndInterest(loan, rate, payments);
  }

  /** The verdict against the computed costs, to the last digit: only what exceeds the threshold counts. */
  lemma ComputedVerdictSays(i: Inputs, overdueDays: int, thresholdPct: real, growth: Growth)
    ensures var e := CostLimitWith(i, overdueDays, thresholdPct, growth);
            e.Costed? ==>
              var cost, overdue := e.figures.costPct, e.figures.overdueCostPct;
              && (overdue.Some? <==> overdueDays > 0)
              && e.verdict == (if cost > thresholdPct then Triggered
                               else if overdue.Some? && overdue.value > thresholdPct then RiskWarning
                               else NotTriggered)
  {
  }

  predicate Lacks(i: Inputs, overdueDays: int, f: Field) {
    match f
    case InterestRate => i.annualRatePct.None?
    case LoanAmount => i.loanAmount.None?
    case LoanFees => i.mandatoryFees.None?
    case LoanTerm => i.loanTerm.None?
    case OverdueInterestRate => overdueDays > 0 && i.overdueRatePct.None?
    case RepaymentMethod => i.repaymentMethod.None?
    case Lpr => false
  }

  /** The place of a field in the order of the field keys. */
  function Place(f: Field): nat {
    match f
    case InterestRate => 0
    case LoanAmount => 1
    case LoanFees => 2
    case LoanTerm => 3
    case OverdueInterestRate => 4
    case RepaymentMethod => 5
    case Lpr => 6
  }

  /** What the evaluation lists of an input that lacks something: all that is missing, in order. */
  lemma MissingExactly(i: Inputs, overdueDays: int, thresholdPct: real, growth: Growth)
    requires exists f :: Lacks(i, overdueDays, f)
    ensures var e := CostLimitWith(i, overdueDays, thresholdPct, growth);
            && e.Insufficient? && (forall f :: f in e.missing <==> Lacks(i, overdueDays, f))
            && forall a, b | 0 <= a < b < |e.missing| :: Place(e.missing[a]) < Place(e.missing[b])
  {
    MissingIsSorted(i, overdueDays);
  }

  /** Otherwise it lists the first of term, amount, fees and method that is out of range, or gives a verdict. */
  lemma RejectedExactly(i: Inputs, overdueDays: int, thresholdPct: real, growth: Growth)
    requires i.annualRatePct.Some? && i.loanAmount.Some? && i.mandatoryFees.Some? && i.loanTerm.Some?
    requires i.repaymentMethod.Some? && (overdueDays > 0 ==> i.overdueRatePct.Some?)
    ensures var e := CostLimitWith(i, overdueDays, thresholdPct, growth);
            var term, loan, fees := i.loanTerm.value, i.loanAmount.value, i.mandatoryFees.value;
            var supported := Names(i.repaymentMethod.value, "等额本息") || Names(i.repaymentMethod.value, "等额本金");
            && (e == Insufficient([LoanTerm]) <==> term <= 0)
            && (e == Insufficient([LoanAmount]) <==> term > 0 && loan <= 0.0)
            && (e == Insufficient([LoanFees]) <==> term > 0 && loan > 0.0 && (fees < 0.0 || fees >= loan))
            && (e == Insufficient([RepaymentMethod]) <==> term > 0 && 0.0 <= fees < loan && !supported)
            && (!e.Insufficient? <==> term > 0 && 0.0 <= fees < loan && supported)
  {
    MethodIsNamed(i.repaymentMethod.value);
  }

  lemma MissingIsSorted(i: Inputs, overdueDays: int)
    ensures var missing := MissingForCost(i, overdueDays);
            && (missing == [] <==> Complete(i, overdueDays))
            && (forall f :: f in missing <==> Lacks(i, overdueDays, f))
            && forall a, b | 0 <= a < b < |missing| :: Place(missing[a]) < Place(missing[b])
  {
  }

  /** b asks no less of the borrower than a: same loan and schedule, no lower rate, fees or overdue charge. */
  predicate NoCheaper(a: Inputs, aDays: int, b: Inputs, bDays: int) {
    && Complete(a, aDays) && Complete(b, bDays)
    && a.loanAmount == b.loanAmount && a.loanTerm == b.loanTerm && a.repaymentMethod == b.repaymentMethod
    && 0.0 <= a.annualRatePct.value <= b.annualRatePct.value
    && a.mandatoryFees.value <= b.mandatoryFees.value
    && aDays <= bDays
    && (bDays > 0 ==> b.overdueRatePct.value >= 0.0)
    && (aDays > 0 ==> 0.0 <= a.overdueRatePct.value <= b.overdueRatePct.value)
  }

  function Severity(v: Verdict): nat
    requires v.NotTriggered? || v.RiskWarning? || v.Triggered?
  {
    match v
    case NotTriggered => 0
    case RiskWarning => 1
    case Triggered => 2
  }

  lemma NonNegativeRateIsCostable(i: Inputs, overdueDays: int)
    requires Complete(i, overdueDays) && Rejected(i).None? && i.annualRatePct.value >= 0.0
    ensures Costable(i, overdueDays)
  {
    if MonthlyRate(i) > 0.0 {
      GrowthAboveOne(MonthlyRate(i), i.loanTerm.value);
    }
  }

  /**
   * Whatever arithmetic computes the growth factor: the evaluation divides by zero exactly for equal
   * instalments at a rate other than 0 whose computed factor is 1. With exact arithmetic no rate that is
   * not negative is one.
   */
  lemma EvaluationFailsExactly(i: Inputs, overdueDays: int, thresholdPct: real, growth: Growth)
    ensures CostLimitWith(i, overdueDays, thresholdPct, growth).DivisionByZero? <==>
              && Complete(i, overdueDays) && Rejected(i).None?
              && MethodOf(i.repaymentMethod.value) == Some(EqualInstallments)
              && MonthlyRate(i) != 0.0 && growth(MonthlyRate(i), i.loanTerm.value) == 1.0
    ensures Complete(i, overdueDays) && i.annualRatePct.value >= 0.0 ==>
              !CostLimitWith(i, overdueDays, thresholdPct, EXACT_GROWTH).DivisionByZero?
  {
    if Complete(i, overdueDays) && Rejected(i).None? && i.annualRatePct.value >= 0.0 {
      NonNegativeRateIsCostable(i, overdueDays);
    }
  }

  /** At 28 digits such rates exist: those above 0 and up to 5e-28 a month, over any term. */
  lemma TinyRatesFailExactly(i: Inputs, overdueDays: int, thresholdPct: real)
    requires i.annualRatePct.Some? ==> i.annualRatePct.value >= 0.0
    ensures CostLimitWith(i, overdueDays, thresholdPct, DECIMAL_GROWTH).DivisionByZero? <==>
              && Complete(i, overdueDays) && Rejected(i).None?
              && MethodOf(i.repaymentMethod.value) == Some(EqualInstallments)
              && 0.0 < MonthlyRate(i) <= ULP / 2.0
  {
    EvaluationFailsExactly(i, overdueDays, thresholdPct, DECIMAL_GROWTH);
    if Complete(i, overdueDays) && Rejected(i).None? {
      DecimalGrowthIsOne(MonthlyRate(i), i.loanTerm.value);
    }
  }

  lemma NoCheaperFlows(a: Inputs, aDays: int, b: Inputs, bDays: int)
    requires NoCheaper(a, aDays, b, bDays) && Costable(a, aDays) && Costable(b, bDays)
    ensures PointwiseAtMost(NormalFlows(a), NormalFlows(b))
    ensures aDays > 0 ==> OverdueInterest(a, aDays) <= OverdueInterest(b, bDays)
  {
    PaymentsMonotoneInRate(a.loanAmount.value, MonthlyRate(a), MonthlyRate(b), a.loanTerm.value,
                           MethodOf(a.repaymentMethod.value).value);
    if aDays > 0 {
      var loan := a.loanAmount.value;
      ProductMonotone(loan, loan, RateFrac(a.overdueRatePct.value), RateFrac(b.overdueRatePct.value));
      ProductMonotone(loan * RateFrac(a.overdueRatePct.value), loan * RateFrac(b.overdueRatePct.value),
                      aDays as real, bDays as real);
    }
  }

  lemma ProductMonotone(a: real, b: real, c: real, d: real)
    requires 0.0 <= a <= b && 0.0 <= c <= d
    ensures 0.0 <= a * c <= b * d
  {
  }

  /**
   * Raising the rate, the fees, the overdue rate or the overdue days, or lowering the threshold, never
   * lowers a computed cost and never weakens the verdict. Only fees that reach the loan amount leave b uncosted.
   */
  lemma VerdictMonotone(a: Inputs, aDays: int, aThreshold: real, b: Inputs, bDays: int, bThreshold: real)
    requires NoCheaper(a, aDays, b, bDays) && bThreshold <= aThreshold
    requires EffectiveCostLimit(a, aDays, aThreshold).Costed?
    ensures EffectiveCostLimit(b, bDays, bThreshold).Costed? <==> b.mandatoryFees.value < b.loanAmount.value
    ensures EffectiveCostLimit(b, bDays, bThreshold).Costed? ==>
              var ea, eb := EffectiveCostLimit(a, aDays, aThreshold), EffectiveCostLimit(b, bDays, bThreshold);
              && ea.figures.costPct <= eb.figures.costPct
              && (aDays > 0 ==> ea.figures.overdueCostPct.value <= eb.figures.overdueCostPct.value)
              && Severity(ea.verdict) <= Severity(eb.verdict)
  {
    if b.mandatoryFees.value < b.loanAmount.value {
      NonNegativeRateIsCostable(b, bDays);
      NoCheaperFlows(a, aDays, b, bDays);
      IrrRaised(NormalFlows(a), NormalFlows(b));
      if aDays > 0 {
        IrrRaised(OverdueFlows(a, aDays), OverdueFlows(b, bDays));
      }
    }
  }

  /** With no fees, the computed cost of a loan is its nominal rate, to 6e-10 of a percent, below 600%. */
  lemma NoFeesGiveNominalRate(i: Inputs)
    requires Costable(i, 0) && i.mandatoryFees.value == 0.0 && 0.0 <= i.annualRatePct.value <= 600.0
    ensures -0.0000000006 < CostFigures(i, 0).costPct - i.annualRatePct.value < 0.0000000006
  {
    var rate := MonthlyRate(i);
    SchedulesAmortise(i.loanAmount.value, rate, i.loanTerm.value, MethodOf(i.repaymentMethod.value).value);
    AmortisesAtOwnRate(i.loanAmount.value, rate, ScheduledPayments(i));
    ScheduleIsLoanShaped(i);
    if rate > 0.0 {
      ValueFalls(i, 0.0, rate);
      IrrNearRoot(NormalFlows(i), rate);
    } else {
      IrrRange(NormalFlows(i));
    }
  }

  lemma ScheduleIsLoanShaped(i: Inputs)
    requires Costable(i, 0) && i.annualRatePct.value >= 0.0
    ensures LoanShaped(NormalFlows(i)) && NormalFlows(i)[1..] == ScheduledPayments(i)
    ensures exists k | 1 <= k < |NormalFlows(i)| :: NormalFlows(i)[k] > 0.0
  {
    var loan, rate := i.loanAmount.value, MonthlyRate(i);
    var repayment := MethodOf(i.repaymentMethod.value).value;
    var payments := ScheduledPayments(i);
    assert NormalFlows(i)[1..] == payments;
    PaymentsMonotoneInRate(loan, rate, rate, i.loanTerm.value, repayment);
    SchedulesAmortise(loan, rate, i.loanTerm.value, repayment);
    AmortisesAtOwnRate(loan, rate, payments);
    assert LoanFlows(loan, payments)[1..] == payments;
    assert Npv(payments, rate) / (1.0 + rate) == loan;
    NpvAntitone(payments, rate, rate);
    if Npv(payments, rate) <= 0.0 {
      DivideAntitone(0.0, 0.0, 1.0 + rate, 1.0 + rate);
    }
    var k :| 0 <= k < |payments| && payments[k] > 0.0;
    assert NormalFlows(i)[k + 1] > 0.0;
  }

  lemma ValueFalls(i: Inputs, low: real, high: real)
    requires Costable(i, 0) && i.annualRatePct.value >= 0.0 && -1.0 < low < high
    ensures Npv(NormalFlows(i), high) < Npv(NormalFlows(i), low)
  {
    ScheduleIsLoanShaped(i);
    NpvStrictlyDecreasing(NormalFlows(i), low, high);
  }

  /** At its nominal rate a loan is worth the fees deducted from it. */
  lemma ValueAtNominalRate(i: Inputs)
    requires Costable(i, 0) && i.annualRatePct.value >= 0.0
    ensures Npv(NormalFlows(i), MonthlyRate(i)) == i.mandatoryFees.value
  {
    var loan, rate, payments := i.loanAmount.value, MonthlyRate(i), ScheduledPayments(i);
    SchedulesAmortise(loan, rate, i.loanTerm.value, MethodOf(i.repaymentMethod.value).value);
    AmortisesAtOwnRate(loan, rate, payments);
    assert LoanFlows(loan, payments)[1..] == payments == NormalFlows(i)[1..];
  }

  /** Any fee puts every exact rate strictly above the nominal one. */
  lemma FeesRaiseExactRate(i: Inputs, root: real)
    requires Costable(i, 0) && i.mandatoryFees.value > 0.0 && i.annualRatePct.value >= 0.0
    requires root > -1.0 && Npv(NormalFlows(i), root) == 0.0
    ensures root > MonthlyRate(i)
  {
    ValueAtNominalRate(i);
    if root < MonthlyRate(i) {
      ValueFalls(i, root, MonthlyRate(i));
    }
  }

  /** The computed cost is never below the nominal rate, to 6e-10 of a percent, for nominal rates up to 600%. */
  lemma CostCoversNominalRate(i: Inputs)
    requires Costable(i, 0) && 0.0 <= i.annualRatePct.value <= 600.0
    ensures CostFigures(i, 0).costPct > i.annualRatePct.value - COST_PRECISION
  {
    if i.mandatoryFees.value > 0.0 {
      ValueAtNominalRate(i);
      ScheduleIsLoanShaped(i);
      CostAgainstPct(NormalFlows(i), i.annualRatePct.value);
    } else {
      NoFeesGiveNominalRate(i);
    }
  }

  /** What 5e-13 a month is in percent a year. */
  const COST_PRECISION: real := 0.0000000006

  /** Discounted at this yearly rate the collected money is still worth more than what was handed out. */
  ghost predicate CostsMoreThan(flows: seq<real>, pct: real)
    requires pct >= 0.0
  {
    Npv(flows, RateFrac(pct) / 12.0) > 0.0
  }

  lemma CostAgainstPct(flows: seq<real>, pct: real)
    requires LoanShaped(flows) && pct >= 0.0
    ensures CostsMoreThan(flows, pct) && pct <= 600.0 ==> Annualised(Irr(flows)) > pct - COST_PRECISION
    ensures !CostsMoreThan(flows, pct) ==> Annualised(Irr(flows)) < pct + COST_PRECISION
  {
    IrrAgainstRate(flows, RateFrac(pct) / 12.0);
  }

  lemma OverdueIsLoanShaped(i: Inputs, overdueDays: int)
    requires Costable(i, overdueDays) && overdueDays > 0
    requires i.annualRatePct.value >= 0.0 && i.overdueRatePct.value >= 0.0
    ensures LoanShaped(OverdueFlows(i, overdueDays))
  {
    ScheduleIsLoanShaped(i);
    OverdueInterestNonNegative(i, overdueDays);
    assert OverdueFlows(i, overdueDays)[1..] == NormalFlows(i)[1..] + [OverdueInterest(i, overdueDays)];
  }

  /**
   * The verdict is the exact one wherever the exact costs, with or without a root, are not within 6e-10 of a
   * percent of the threshold: triggered if the normal cost exceeds it, a risk warning if only the overdue cost
   * does, and otherwise not triggered.
   */
  lemma VerdictFollowsExactCosts(i: Inputs, overdueDays: int, thresholdPct: real)
    requires Costable(i, overdueDays) && i.annualRatePct.value >= 0.0
    requires overdueDays > 0 ==> i.overdueRatePct.value >= 0.0
    requires thresholdPct > 0.0
    ensures var verdict := EffectiveCostLimit(i, overdueDays, thresholdPct).verdict;
            var above := thresholdPct + COST_PRECISION;
            above <= 600.0 ==>
              && (CostsMoreThan(NormalFlows(i), above) ==> verdict.Triggered?)
              && (overdueDays > 0 && CostsMoreThan(OverdueFlows(i, overdueDays), above) ==> !verdict.NotTriggered?)
    ensures var verdict := EffectiveCostLimit(i, overdueDays, thresholdPct).verdict;
            var below := thresholdPct - COST_PRECISION;
            below >= 0.0 ==>
              && (!CostsMoreThan(NormalFlows(i), below) ==> !verdict.Triggered?)
              && (overdueDays > 0 && !CostsMoreThan(OverdueFlows(i, overdueDays), below) ==> verdict.NotTriggered?)
    ensures overdueDays <= 0 ==> !EffectiveCostLimit(i, overdueDays, thresholdPct).verdict.RiskWarning?
  {
    ScheduleIsLoanShaped(i);
    CostAgainstThreshold(NormalFlows(i), thresholdPct);
    if overdueDays > 0 {
      OverdueIsLoanShaped(i, overdueDays);
      CostAgainstThreshold(OverdueFlows(i, overdueDays), thresholdPct);
      OverdueCostsNoLess(i, overdueDays);
    }
  }

  lemma CostAgainstThreshold(flows: seq<real>, thresholdPct: real)
    requires LoanShaped(flows) && thresholdPct > 0.0
    ensures thresholdPct + COST_PRECISION <= 600.0 && CostsMoreThan(flows, thresholdPct + COST_PRECISION)
            ==> Annualised(Irr(flows)) > thresholdPct
    ensures thresholdPct - COST_PRECISION >= 0.0 && !CostsMoreThan(flows, thresholdPct - COST_PRECISION)
            ==> Annualised(Irr(flows)) < thresholdPct
  {
    CostAgainstPct(flows, thresholdPct + COST_PRECISION);
    if thresholdPct - COST_PRECISION >= 0.0 {
      CostAgainstPct(flows, thresholdPct - COST_PRECISION);
    }
  }

  /** A flow costs more than a percentage exactly when its exact rate, if it has one, is above it. */
  lemma CostsMoreThanBelowRoot(flows: seq<real>, root: real, pct: real)
    requires LoanShaped(flows) && Npv(flows, 0.0) > 0.0 && pct >= 0.0
    requires root >= 0.0 && Npv(flows, root) == 0.0
    ensures CostsMoreThan(flows, pct) <==> pct < Annualised(root)
  {
    SignAroundRoot(flows, root, RateFrac(pct) / 12.0);
  }

  /** In terms of exact rates: the verdict follows that of the normal flows, whichever non-negative rate it is. */
  lemma TriggeredFollowsExactRate(i: Inputs, overdueDays: int, thresholdPct: real, root: real)
    requires Costable(i, overdueDays) && i.annualRatePct.value >= 0.0
    requires root >= 0.0 && Npv(NormalFlows(i), root) == 0.0
    ensures var verdict, cost := EffectiveCostLimit(i, overdueDays, thresholdPct).verdict, Annualised(root);
            && (cost >= thresholdPct + COST_PRECISION && thresholdPct <= 600.0 - COST_PRECISION ==> verdict.Triggered?)
            && (cost <= thresholdPct - COST_PRECISION ==> !verdict.Triggered?)
  {
    ScheduleIsLoanShaped(i);
    if root > 0.0 {
      ValueFalls(i, 0.0, root);
      IrrNearRoot(NormalFlows(i), root);
      WidthAtStop();
    } else {
      IrrRange(NormalFlows(i));
    }
  }

  /**
   * The bracket stops at 0.5 a month, so every computed cost is below 600%: a threshold of 600% or more
   * can never be exceeded, whatever the loan costs.
   */
  lemma CostSaturates(i: Inputs, overdueDays: int, thresholdPct: real)
    requires Costable(i, overdueDays)
    ensures 0.0 <= CostFigures(i, overdueDays).costPct < 600.0
    ensures thresholdPct >= 600.0 ==> EffectiveCostLimit(i, overdueDays, thresholdPct).verdict.NotTriggered?
  {
    IrrRange(NormalFlows(i));
    if overdueDays > 0 {
      IrrRange(OverdueFlows(i, overdueDays));
    }
  }
}
