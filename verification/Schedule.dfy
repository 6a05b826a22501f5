/** The two repayment schedules, measured against the running balance of the loan they repay. */
module Schedule {
  import opened CashFlow
  import opened Wrappers

  // ---------------------------------------------------------------------------
  // Reference: the balance left after paying
  // ---------------------------------------------------------------------------

  /** What is still owed when each period charges interest on the balance and then takes one payment. */
  ghost function Balance(owed: real, rate: real, payments: seq<real>): real
    decreases |payments|
  {
    if payments == [] then owed
    else Balance(owed * (1.0 + rate) - payments[0], rate, payments[1..])
  }

  function Sum(payments: seq<real>): real {
    if payments == [] then 0.0 else payments[0] + Sum(payments[1..])
  }

  /** The interest that the running balance is charged, period by period. */
  ghost function InterestCharged(owed: real, rate: real, payments: seq<real>): real
    decreases |payments|
  {
    if payments == [] then 0.0
    else owed * rate + InterestCharged(owed * (1.0 + rate) - payments[0], rate, payments[1..])
  }

  /** What is paid and what is left to pay are the loan and its interest. */
  lemma {:induction false} PaidIsOwedAndInterest(owed: real, rate: real, payments: seq<real>)
    ensures Sum(payments) + Balance(owed, rate, payments) == owed + InterestCharged(owed, rate, payments)
    decreases |payments|
  {
    if payments != [] {
      PaidIsOwedAndInterest(owed * (1.0 + rate) - payments[0], rate, payments[1..]);
    }
  }

  /** The cash flow of a loan: the money handed out, then the payments. */
  function LoanFlows(handedOut: real, payments: seq<real>): seq<real> {
    [-handedOut] + payments
  }

  /** The value of a loan at its own rate is minus the discounted balance it leaves. */
  lemma {:induction false} ValueIsDiscountedBalance(owed: real, rate: real, payments: seq<real>)
    requires rate != -1.0
    ensures Npv(LoanFlows(owed, payments), rate) * Pow(1.0 + rate, |payments|) == -Balance(owed, rate, payments)
    decreases |payments|
  {
    var growth := 1.0 + rate;
    var here := Npv(LoanFlows(owed, payments), rate);
    assert LoanFlows(owed, payments)[1..] == payments;
    if payments == [] {
      assert here == -owed + 0.0 / growth;
    } else {
      var next := owed * growth - payments[0];
      var later := Npv(payments[1..], rate) / growth;
      assert LoanFlows(next, payments[1..])[1..] == payments[1..];
      assert Npv(payments, rate) / growth * growth == Npv(payments, rate) == payments[0] + later;
      assert Npv(LoanFlows(next, payments[1..]), rate) == here * growth;
      ValueIsDiscountedBalance(next, rate, payments[1..]);
      var power := Pow(growth, |payments| - 1);
      assert here * Pow(growth, |payments|) == here * growth * power;
    }
  }

  lemma AmortisesAtOwnRate(owed: real, rate: real, payments: seq<real>)
    requires rate != -1.0 && Balance(owed, rate, payments) == 0.0
    ensures Npv(LoanFlows(owed, payments), rate) == 0.0
  {
    ValueIsDiscountedBalance(owed, rate, payments);
    PowNonZero(1.0 + rate, |payments|);
  }

  // ---------------------------------------------------------------------------
  // Equal instalments
  // ---------------------------------------------------------------------------

  function Repeat(payment: real, periods: nat): (payments: seq<real>)
    ensures |payments| == periods && forall i | 0 <= i < periods :: payments[i] == payment
  {
    seq(periods, _ => payment)
  }

  /** The annuity formula divides by the growth over the whole term less one. */
  predicate FormulaDefined(rate: real, periods: nat) {
    periods > 0 && (rate == 0.0 || Pow(1.0 + rate, periods) != 1.0)
  }

  lemma ProductMagnitude(x: real, y: real)
    ensures -1.0 < x < 1.0 && -1.0 < y < 1.0 ==> -1.0 < x * y < 1.0
    ensures (x < -1.0 || x > 1.0) && (y < -1.0 || y > 1.0) ==> x * y < -1.0 || x * y > 1.0
  {
    var a, b := if x < 0.0 then -x else x, if y < 0.0 then -y else y;
    assert a * b == x * y || a * b == -(x * y);
    if a < 1.0 && b < 1.0 {
      assert 0.0 <= a * b <= a;
    }
    if a > 1.0 && b > 1.0 {
      assert a * b > a;
    }
  }

  lemma {:induction false} PowMagnitude(x: real, n: nat)
    requires n > 0
    ensures -1.0 < x < 1.0 ==> -1.0 < Pow(x, n) < 1.0
    ensures x < -1.0 || x > 1.0 ==> Pow(x, n) < -1.0 || Pow(x, n) > 1.0
    ensures x == -1.0 ==> Pow(x, n) == if n % 2 == 0 then 1.0 else -1.0
  {
    if n == 1 {
      assert Pow(x, 1) == x * Pow(x, 0) == x;
    } else {
      PowMagnitude(x, n - 1);
      ProductMagnitude(x, Pow(x, n - 1));
    }
  }

  /** The division by zero happens for one rate only: minus 200% a month, over an even number of months. */
  lemma FormulaUndefinedExactly(rate: real, periods: nat)
    requires periods > 0
    ensures !FormulaDefined(rate, periods) <==> rate == -2.0 && periods % 2 == 0
  {
    PowMagnitude(1.0 + rate, periods);
    PowOfOne(periods);
  }

  /** The growth over a number of periods at a rate, as some arithmetic computes it. */
  type Growth = (real, nat) -> real

  const EXACT_GROWTH: Growth := (rate: real, periods: nat) => Pow(1.0 + rate, periods)

  /** The annuity formula for whatever factor has been computed for the growth over the whole term. */
  function InstallmentFrom(principal: real, rate: real, periods: nat, factor: real): real
    requires periods > 0 && (rate == 0.0 || factor != 1.0)
  {
    if rate == 0.0 then principal / (periods as real) else principal * rate * factor / (factor - 1.0)
  }

  function InstallmentPayment(principal: real, rate: real, periods: nat): real
    requires FormulaDefined(rate, periods)
  {
    InstallmentFrom(principal, rate, periods, Pow(1.0 + rate, periods))
  }

  lemma PayOne(owed: real, rate: real, payments: seq<real>, next: real, rest: seq<real>)
    requires payments != [] && rest == payments[1..] && next == owed * (1.0 + rate) - payments[0]
    ensures Balance(owed, rate, payments) == Balance(next, rate, rest)
  {
  }

  lemma ZeroFactor(x: real, y: real)
    ensures x * y == 0.0 && y != 0.0 ==> x == 0.0
  {
  }

  lemma LevelStep(owed: real, rate: real, payment: real, power: real)
    requires owed * rate * ((1.0 + rate) * power) == payment * ((1.0 + rate) * power - 1.0)
    ensures (owed * (1.0 + rate) - payment) * rate * power == payment * (power - 1.0)
  {
    var interest := rate * power;
    assert owed * rate * ((1.0 + rate) * power) == owed * (1.0 + rate) * interest;
    assert (owed * (1.0 + rate) - payment) * rate * power == owed * (1.0 + rate) * interest - payment * interest;
    assert payment * ((1.0 + rate) * power - 1.0) == payment * power + payment * interest - payment;
  }

  lemma {:induction false} LevelBalance(owed: real, rate: real, payment: real, periods: nat)
    requires owed * rate * Pow(1.0 + rate, periods) == payment * (Pow(1.0 + rate, periods) - 1.0)
    requires rate == 0.0 ==> owed == payment * (periods as real)
    ensures Balance(owed, rate, Repeat(payment, periods)) == 0.0
    decreases periods
  {
    if periods == 0 {
      ZeroFactor(owed, rate);
    } else {
      var growth, power := 1.0 + rate, Pow(1.0 + rate, periods - 1);
      var next := owed * growth - payment;
      assert Repeat(payment, periods)[1..] == Repeat(payment, periods - 1);
      LevelStep(owed, rate, payment, power);
      PayOne(owed, rate, Repeat(payment, periods), next, Repeat(payment, periods - 1));
      LevelBalance(next, rate, payment, periods - 1);
    }
  }

  /** Equal instalments leave nothing owed, at any rate for which the formula is defined. */
  lemma InstallmentsAmortise(principal: real, rate: real, periods: nat)
    requires FormulaDefined(rate, periods)
    ensures Balance(principal, rate, Repeat(InstallmentPayment(principal, rate, periods), periods)) == 0.0
  {
    var payment := InstallmentPayment(principal, rate, periods);
    if rate != 0.0 {
      var factor := Pow(1.0 + rate, periods);
      assert payment * (factor - 1.0) == principal * rate * factor;
    } else {
      assert payment * (periods as real) == principal;
      PowOfOne(periods);
    }
    LevelBalance(principal, rate, payment, periods);
  }

  lemma PowOfOne(n: nat)
    ensures Pow(1.0, n) == 1.0
  {
  }

  // ---------------------------------------------------------------------------
  // Twenty-eight digits
  // ---------------------------------------------------------------------------

  const ULP: real := 0.000000000000000000000000001

  /** Rounding to 28 digits, ties to even, of numbers from 1 up to 10; above that it keeps more digits than 28. */
  function Nearest(x: real): real {
    var k := (x / ULP).Floor;
    var rest := x / ULP - k as real;
    if rest < 0.5 || (rest == 0.5 && k % 2 == 0) then k as real * ULP else (k + 1) as real * ULP
  }

  const DECIMAL_GROWTH: Growth := (rate: real, periods: nat) => Nearest(Pow(Nearest(1.0 + rate), periods))

  lemma NearestToOne(x: real)
    requires x >= 1.0
    ensures x <= 1.0 + ULP / 2.0 ==> Nearest(x) == 1.0
    ensures x > 1.0 + ULP / 2.0 ==> Nearest(x) >= 1.0 + ULP
  {
    var one := 1000000000000000000000000000;
    var k := (x / ULP).Floor;
    assert 1.0 / ULP == one as real && one % 2 == 0;
    assert x / ULP >= one as real;
    if x <= 1.0 + ULP / 2.0 {
      assert x / ULP <= one as real + 0.5;
      assert k == one;
    } else {
      assert x / ULP > one as real + 0.5;
      assert k >= one;
      if k > one {
        assert k as real * ULP >= (one + 1) as real * ULP;
      }
    }
  }

  /** At 28 digits the growth factor of a rate that is not negative is 1 exactly up to 5e-28 a month, not just at 0. */
  lemma DecimalGrowthIsOne(rate: real, periods: nat)
    requires rate >= 0.0 && periods > 0
    ensures DECIMAL_GROWTH(rate, periods) == 1.0 <==> rate <= ULP / 2.0
  {
    var base := Nearest(1.0 + rate);
    NearestToOne(1.0 + rate);
    if rate <= ULP / 2.0 {
      PowOfOne(periods);
      NearestToOne(1.0);
    } else {
      PowAtLeastBase(base, periods);
      NearestToOne(Pow(base, periods));
    }
  }

  lemma {:induction false} PowAtLeastBase(base: real, n: nat)
    requires base >= 1.0 && n > 0
    ensures Pow(base, n) >= base
  {
    if n == 1 {
      assert Pow(base, 1) == base * Pow(base, 0) == base;
    } else {
      PowAtLeastBase(base, n - 1);
      assert base * Pow(base, n - 1) >= base * 1.0;
    }
  }

  // ---------------------------------------------------------------------------
  // Equal principal
  // ---------------------------------------------------------------------------

  /** Each payment is one share of the principal plus a month of interest on what is left of it. */
  ghost function EqualPrincipal(principal: real, rate: real, periods: nat): (payments: seq<real>)
    requires periods > 0
    ensures |payments| == periods
  {
    SharePayments(principal / (periods as real), principal, rate, periods)
  }

  ghost function SharePayments(share: real, principal: real, rate: real, periods: nat): (payments: seq<real>)
    ensures |payments| == periods
    ensures forall k | 0 <= k < periods :: payments[k] == share + (principal - share * (k as real)) * rate
  {
    seq(periods, k requires 0 <= k < periods => share + (principal - share * (k as real)) * rate)
  }

  method EqualPrincipalSchedule(principal: real, rate: real, periods: nat) returns (payments: seq<real>)
    requires periods > 0
    ensures payments == EqualPrincipal(principal, rate, periods)
  {
    var principalPerPeriod := principal / (periods as real);
    payments := [];
    var remaining := principal;
    for k := 0 to periods
      invariant remaining == principal - principalPerPeriod * (k as real)
      invariant payments == EqualPrincipal(principal, rate, periods)[..k]
    {
      var interest := remaining * rate;
      assert principalPerPeriod + interest == EqualPrincipal(principal, rate, periods)[k];
      payments := payments + [principalPerPeriod + interest];
      remaining := remaining - principalPerPeriod;
    }
  }

  /** One share of the principal each time, plus interest on the shares still outstanding. */
  ghost predicate Declining(share: real, rate: real, payments: seq<real>) {
    forall k | 0 <= k < |payments| :: payments[k] == share + share * ((|payments| - k) as real) * rate
  }

  lemma ShareStep(owed: real, share: real, rate: real, left: real)
    requires owed == share * left
    ensures owed * (1.0 + rate) - (share + share * left * rate) == share * (left - 1.0)
    ensures share + share * left * rate + (share * (left - 1.0) + share * (left - 1.0) * rate * left / 2.0)
         == owed + owed * rate * (left + 1.0) / 2.0
  {
    var x := owed * rate;
    assert share * left * rate == x;
    assert share * (left - 1.0) * rate == x - share * rate;
    assert (x - share * rate) * left == x * left - x;
  }

  lemma {:induction false} DecliningAmortises(owed: real, share: real, rate: real, payments: seq<real>)
    requires Declining(share, rate, payments) && owed == share * (|payments| as real)
    ensures Balance(owed, rate, payments) == 0.0
    ensures Sum(payments) == owed + owed * rate * ((|payments| + 1) as real) / 2.0
    decreases |payments|
  {
    if payments == [] {
      assert owed == 0.0;
    } else {
      var left := |payments| as real;
      var rest := payments[1..];
      assert forall k | 0 <= k < |rest| :: rest[k] == payments[k + 1];
      ShareStep(owed, share, rate, left);
      var next := owed * (1.0 + rate) - payments[0];
      PayOne(owed, rate, payments, next, rest);
      DecliningAmortises(next, share, rate, rest);
    }
  }

  /** Equal principal leaves nothing owed, and costs the average balance times the rate times the term. */
  lemma EqualPrincipalAmortises(principal: real, rate: real, periods: nat)
    requires periods > 0
    ensures Balance(principal, rate, EqualPrincipal(principal, rate, periods)) == 0.0
    ensures Sum(EqualPrincipal(principal, rate, periods))
         == principal + principal * rate * ((periods + 1) as real) / 2.0
  {
    var share := principal / (periods as real);
    var all := EqualPrincipal(principal, rate, periods);
    assert share * (periods as real) == principal;
    forall k | 0 <= k < periods ensures all[k] == share + share * ((periods - k) as real) * rate {
      SharesLeft(principal, share, periods as real, k as real);
    }
    DecliningAmortises(principal, share, rate, all);
  }

  lemma SharesLeft(principal: real, share: real, periods: real, paid: real)
    requires principal == share * periods
    ensures principal - share * paid == share * (periods - paid)
  {
  }

  // ---------------------------------------------------------------------------
  // A higher nominal rate never lowers a payment
  // ---------------------------------------------------------------------------

  lemma ScaleQuotient(factor: real, x: real, y: real)
    requires y != 0.0
    ensures factor * x / y == factor * (x / y)
  {
    var q := x / y;
    assert x == q * y;
    assert factor * x == factor * q * y;
  }

  lemma {:induction false} NpvOfRepeat(payment: real, periods: nat, rate: real)
    requires rate != -1.0
    ensures Npv(Repeat(payment, periods), rate) == payment * Npv(Repeat(1.0, periods), rate)
    decreases periods
  {
    if periods > 0 {
      assert Repeat(payment, periods)[1..] == Repeat(payment, periods - 1);
      assert Repeat(1.0, periods)[1..] == Repeat(1.0, periods - 1);
      NpvOfRepeat(payment, periods - 1, rate);
      ScaleQuotient(payment, Npv(Repeat(1.0, periods - 1), rate), 1.0 + rate);
    }
  }

  lemma {:induction false} GrowthAboveOne(rate: real, periods: nat)
    requires rate > 0.0 && periods > 0
    ensures Pow(1.0 + rate, periods) > 1.0
  {
    if periods > 1 {
      GrowthAboveOne(rate, periods - 1);
      assert (1.0 + rate) * Pow(1.0 + rate, periods - 1) >= Pow(1.0 + rate, periods - 1);
    }
  }

  /** Below: the worth today of one unit paid every month. */
  ghost function Annuity(rate: real, periods: nat): real
    requires rate != -1.0
  {
    Npv(Repeat(1.0, periods), rate) / (1.0 + rate)
  }

  lemma PaymentTimesAnnuity(principal: real, rate: real, periods: nat)
    requires rate > -1.0 && FormulaDefined(rate, periods)
    ensures InstallmentPayment(principal, rate, periods) * Annuity(rate, periods) == principal
  {
    InstallmentsAmortise(principal, rate, periods);
    RepaidByAnnuity(principal, rate, periods, InstallmentPayment(principal, rate, periods));
  }

  lemma RepaidByAnnuity(principal: real, rate: real, periods: nat, payment: real)
    requires rate > -1.0 && Balance(principal, rate, Repeat(payment, periods)) == 0.0
    ensures payment * Annuity(rate, periods) == principal
  {
    AmortisesAtOwnRate(principal, rate, Repeat(payment, periods));
    assert LoanFlows(principal, Repeat(payment, periods))[1..] == Repeat(payment, periods);
    assert Npv(Repeat(payment, periods), rate) / (1.0 + rate) == principal;
    NpvOfRepeat(payment, periods, rate);
    ScaleQuotient(payment, Npv(Repeat(1.0, periods), rate), 1.0 + rate);
  }

  lemma AnnuityAntitone(low: real, high: real, periods: nat)
    requires -1.0 < low <= high && periods > 0
    ensures 0.0 < Annuity(high, periods) <= Annuity(low, periods)
  {
    var unit := Repeat(1.0, periods);
    assert unit[0] > 0.0;
    NpvAntitone(unit, low, high);
    NpvAntitone(unit, high, high);
    DivideAntitone(Npv(unit, low), Npv(unit, high), 1.0 + low, 1.0 + high);
    DivideAntitone(Npv(unit, high), 0.0, 1.0 + high, 1.0 + high);
  }

  lemma InstallmentMonotoneInRate(principal: real, low: real, high: real, periods: nat)
    requires principal >= 0.0 && 0.0 <= low <= high && periods > 0
    ensures FormulaDefined(low, periods) && FormulaDefined(high, periods)
    ensures 0.0 <= InstallmentPayment(principal, low, periods) <= InstallmentPayment(principal, high, periods)
  {
    if low > 0.0 { GrowthAboveOne(low, periods); }
    if high > 0.0 { GrowthAboveOne(high, periods); }
    PaymentTimesAnnuity(principal, low, periods);
    PaymentTimesAnnuity(principal, high, periods);
    AnnuityAntitone(low, high, periods);
    SameProduct(InstallmentPayment(principal, low, periods), InstallmentPayment(principal, high, periods),
                Annuity(low, periods), Annuity(high, periods));
  }

  lemma SameProduct(x: real, y: real, a: real, b: real)
    requires 0.0 < b <= a && x * a == y * b >= 0.0
    ensures 0.0 <= x <= y
  {
  }

  lemma EqualPrincipalMonotoneInRate(principal: real, low: real, high: real, periods: nat)
    requires principal >= 0.0 && low <= high && periods > 0
    ensures PointwiseAtMost(EqualPrincipal(principal, low, periods), EqualPrincipal(principal, high, periods))
    ensures low >= 0.0 ==> NonNegative(EqualPrincipal(principal, low, periods))
  {
    var share := principal / (periods as real);
    assert share * (periods as real) == principal && share >= 0.0;
    forall k | 0 <= k < periods
      ensures EqualPrincipal(principal, low, periods)[k] <= EqualPrincipal(principal, high, periods)[k]
      ensures low >= 0.0 ==> EqualPrincipal(principal, low, periods)[k] >= 0.0
    {
      var left := principal - share * (k as real);
      assert left == share * ((periods - k) as real) >= 0.0;
      assert left * low <= left * high;
    }
  }

  // ---------------------------------------------------------------------------
  // Choosing the schedule
  // ---------------------------------------------------------------------------

  datatype Repayment = EqualInstallments | EqualPrincipalParts

  const INSTALLMENTS_NAME := "等额本息"
  const PRINCIPAL_NAME := "等额本金"

  predicate Contains(text: string, part: string) {
    exists i | 0 <= i <= |text| :: part <= text[i..]
  }

  /** The instalment name is looked for first, so a text with both names means instalments. */
  function MethodOf(text: string): Option<Repayment> {
    if Contains(text, INSTALLMENTS_NAME) then Some(EqualInstallments)
    else if Contains(text, PRINCIPAL_NAME) then Some(EqualPrincipalParts)
    else None
  }

  predicate NamedAt(text: string, name: string, k: nat) {
    k + |name| <= |text| && text[k..k + |name|] == name
  }

  /** The text has the name in it somewhere. */
  ghost predicate Names(text: string, name: string) {
    exists k: nat :: NamedAt(text, name, k)
  }

  lemma MethodIsNamed(text: string)
    ensures MethodOf(text) == Some(EqualInstallments) <==> Names(text, "等额本息")
    ensures MethodOf(text) == Some(EqualPrincipalParts) <==> !Names(text, "等额本息") && Names(text, "等额本金")
  {
    ContainsName(text, "等额本息");
    ContainsName(text, "等额本金");
  }

  lemma ContainsName(text: string, name: string)
    ensures Contains(text, name) <==> Names(text, name)
  {
    if i :| 0 <= i <= |text| && name <= text[i..] {
      assert text[i..i + |name|] == text[i..][..|name|] == name;
      assert NamedAt(text, name, i);
    }
    if k: nat :| NamedAt(text, name, k) {
      assert text[k..][..|name|] == name;
    }
  }

  /** The formula for instalments can divide by zero; equal principal cannot. */
  predicate ScheduleDefined(rate: real, periods: nat, repayment: Repayment) {
    periods > 0 && (repayment.EqualInstallments? ==> FormulaDefined(rate, periods))
  }

  ghost function Payments(principal: real, rate: real, periods: nat, repayment: Repayment): (payments: seq<real>)
    requires ScheduleDefined(rate, periods, repayment)
    ensures |payments| == periods
  {
    match repayment
    case EqualInstallments => Repeat(InstallmentPayment(principal, rate, periods), periods)
    case EqualPrincipalParts => EqualPrincipal(principal, rate, periods)
  }

  /** The same for a computed growth factor, which is all that the two can differ in. */
  predicate DefinedFrom(rate: real, periods: nat, repayment: Repayment, factor: real) {
    periods > 0 && (repayment.EqualInstallments? ==> rate == 0.0 || factor != 1.0)
  }

  ghost function PaymentsFrom(principal: real, rate: real, periods: nat, repayment: Repayment, factor: real)
    : (payments: seq<real>)
    requires DefinedFrom(rate, periods, repayment, factor)
    ensures |payments| == periods
  {
    match repayment
    case EqualInstallments => Repeat(InstallmentFrom(principal, rate, periods, factor), periods)
    case EqualPrincipalParts => EqualPrincipal(principal, rate, periods)
  }

  method BuildSchedule(principal: real, rate: real, periods: nat, text: string, factor: real)
    returns (schedule: Option<seq<real>>)
    requires MethodOf(text).Some? ==> DefinedFrom(rate, periods, MethodOf(text).value, factor)
    ensures schedule
         == if MethodOf(text).Some? then Some(PaymentsFrom(principal, rate, periods, MethodOf(text).value,
             factor)) else None
  {
    if Contains(text, INSTALLMENTS_NAME) {
      return Some(Repeat(InstallmentFrom(principal, rate, periods, factor), periods));
    }
    if Contains(text, PRINCIPAL_NAME) {
      var payments := EqualPrincipalSchedule(principal, rate, periods);
      return Some(payments);
    }
    return None;
  }

  /** Equal instalments are all the same; equal principal starts with a share and full interest and falls steadily. */
  lemma PaymentsSay(principal: real, rate: real, periods: nat, repayment: Repayment)
    requires ScheduleDefined(rate, periods, repayment)
    ensures var payments, share := Payments(principal, rate, periods, repayment), principal / (periods as real);
            && (repayment == EqualInstallments ==> forall k | 0 < k < periods :: payments[k] == payments[0])
            && (repayment == EqualPrincipalParts ==>
                  && payments[0] == share + principal * rate
                  && forall k | 0 < k < periods :: payments[k - 1] - payments[k] == share * rate)
  {
    if repayment == EqualPrincipalParts {
      var share, payments := principal / (periods as real), EqualPrincipal(principal, rate, periods);
      forall k | 0 < k < periods ensures payments[k - 1] - payments[k] == share * rate {
        ShareApart(principal, share, rate, k as real);
      }
    }
  }

  lemma ShareApart(principal: real, share: real, rate: real, k: real)
    ensures (share + (principal - share * (k - 1.0)) * rate) - (share + (principal - share * k) * rate) == share * rate
  {
    var left := principal - share * k;
    assert principal - share * (k - 1.0) == left + share;
  }

  /** Both schedules repay the loan exactly: nothing is owed after the last payment. */
  lemma SchedulesAmortise(principal: real, rate: real, periods: nat, repayment: Repayment)
    requires ScheduleDefined(rate, periods, repayment)
    ensures Balance(principal, rate, Payments(principal, rate, periods, repayment)) == 0.0
  {
    match repayment
    case EqualInstallments => InstallmentsAmortise(principal, rate, periods);
    case EqualPrincipalParts => EqualPrincipalAmortises(principal, rate, periods);
  }

  lemma PaymentsMonotoneInRate(principal: real, low: real, high: real, periods: nat, repayment: Repayment)
    requires principal >= 0.0 && 0.0 <= low <= high && periods > 0
    ensures ScheduleDefined(low, periods, repayment) && ScheduleDefined(high, periods, repayment)
    ensures NonNegative(Payments(principal, low, periods, repayment))
    ensures PointwiseAtMost(Payments(principal, low, periods, repayment),
                            Payments(principal, high, periods, repayment))
  {
    InstallmentMonotoneInRate(principal, low, high, periods);
    EqualPrincipalMonotoneInRate(principal, low, high, periods);
  }
}
