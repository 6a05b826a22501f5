/** Present value and the bisection internal rate of return of a monthly cash flow. */
module CashFlow {

  const IRR_PRECISION: real := 0.000000000001
  const IRR_MAX_ITERATIONS: nat := 200
  const IRR_CEILING: real := 0.5
  /** The number of halvings that take the bracket below IRR_PRECISION. */
  const HALVINGS: nat := 39

  // ---------------------------------------------------------------------------
  // Present value
  // ---------------------------------------------------------------------------

  function Pow(base: real, n: nat): real {
    if n == 0 then 1.0 else base * Pow(base, n - 1)
  }

  lemma PowNonZero(base: real, n: nat)
    requires base != 0.0
    ensures Pow(base, n) != 0.0
    ensures base > 0.0 ==> Pow(base, n) > 0.0
  {
  }

  /** Value today of the flows, by discounting the value one month later. */
  ghost function Npv(flows: seq<real>, rate: real): real
    requires rate != -1.0
  {
    if flows == [] then 0.0 else flows[0] + Npv(flows[1..], rate) / (1.0 + rate)
  }

  ghost predicate NonNegative(flows: seq<real>) {
    forall i | 0 <= i < |flows| :: flows[i] >= 0.0
  }

  ghost predicate PointwiseAtMost(a: seq<real>, b: seq<real>) {
    |a| == |b| && forall i | 0 <= i < |a| :: a[i] <= b[i]
  }

  lemma DiscountOnce(flow: real, later: real, growth: real, power: real)
    requires growth != 0.0 && power != 0.0
    ensures growth * power != 0.0
    ensures (flow + later / growth) / power == flow / power + later / (growth * power)
  {
    var q := later / growth;
    assert q / power * power == q;
    assert q / power * (growth * power) == q * growth == later;
  }

  /** Summing each flow over its own power of the growth factor gives the same value. */
  method ComputeNpv(flows: seq<real>, rate: real) returns (total: real)
    requires rate != -1.0
    ensures total == Npv(flows, rate)
  {
    total := 0.0;
    for index := 0 to |flows|
      invariant Pow(1.0 + rate, index) != 0.0
      invariant Npv(flows, rate) == total + Npv(flows[index..], rate) / Pow(1.0 + rate, index)
    {
      PowNonZero(1.0 + rate, index + 1);
      DiscountOnce(flows[index], Npv(flows[index + 1..], rate), 1.0 + rate, Pow(1.0 + rate, index));
      assert flows[index..][1..] == flows[index + 1..];
      total := total + flows[index] / Pow(1.0 + rate, index);
    }
  }

  lemma DivideAntitone(x: real, y: real, a: real, b: real)
    requires 0.0 <= y <= x && 0.0 < a <= b
    ensures 0.0 <= y / b <= x / a
    ensures y < x || (0.0 < x && a < b) ==> y / b < x / a
  {
  }

  /** Non-negative flows are worth no more at a higher rate, and strictly less when any is positive. */
  lemma {:induction false} NpvAntitone(flows: seq<real>, low: real, high: real)
    requires NonNegative(flows) && -1.0 < low <= high
    ensures 0.0 <= Npv(flows, high) <= Npv(flows, low)
    ensures Npv(flows, low) > 0.0 <==> exists i | 0 <= i < |flows| :: flows[i] > 0.0
  {
    if flows != [] {
      NpvAntitone(flows[1..], low, high);
      DivideAntitone(Npv(flows[1..], low), Npv(flows[1..], high), 1.0 + low, 1.0 + high);
      if i :| 0 <= i < |flows| && flows[i] > 0.0 {
        assert i > 0 ==> flows[1..][i - 1] > 0.0;
      }
    }
  }

  /** One outflow then non-negative inflows with value at rate 0: the value falls strictly with the rate. */
  lemma NpvStrictlyDecreasing(flows: seq<real>, low: real, high: real)
    requires flows != [] && NonNegative(flows[1..]) && -1.0 < low < high
    requires exists i | 1 <= i < |flows| :: flows[i] > 0.0
    ensures Npv(flows, high) < Npv(flows, low)
  {
    var i :| 1 <= i < |flows| && flows[i] > 0.0;
    assert flows[1..][i - 1] > 0.0;
    NpvAntitone(flows[1..], low, high);
    DivideAntitone(Npv(flows[1..], low), Npv(flows[1..], high), 1.0 + low, 1.0 + high);
  }

  lemma DivideMonotone(x: real, y: real, a: real)
    requires x <= y && 0.0 < a
    ensures x / a <= y / a
    ensures x < y ==> x / a < y / a
  {
  }

  /** Larger flows are worth at least as much, at every rate above -1. */
  lemma {:induction false} NpvMonotone(a: seq<real>, b: seq<real>, rate: real)
    requires PointwiseAtMost(a, b) && rate > -1.0
    ensures Npv(a, rate) <= Npv(b, rate)
  {
    if a != [] {
      NpvMonotone(a[1..], b[1..], rate);
      DivideMonotone(Npv(a[1..], rate), Npv(b[1..], rate), 1.0 + rate);
    }
  }

  // ---------------------------------------------------------------------------
  // Bisection
  // ---------------------------------------------------------------------------

  /** Width of the bracket after n halvings of [0, 0.5]. */
  ghost function Width(n: nat): real {
    if n == 0 then IRR_CEILING else Width(n - 1) / 2.0
  }

  /** Lower end of the bracket after n halvings. */
  ghost function Low(flows: seq<real>, n: nat): real
    ensures Low(flows, n) >= 0.0
  {
    if n == 0 then 0.0
    else
      WidthPositive(n);
      var low := Low(flows, n - 1);
      if Npv(flows, low + Width(n)) > 0.0 then low + Width(n) else low
  }

  ghost function High(flows: seq<real>, n: nat): real {
    Low(flows, n) + Width(n)
  }

  /** The rate the bisection returns: the midpoint of the bracket after exactly 39 halvings. */
  ghost function Irr(flows: seq<real>): real {
    if Npv(flows, 0.0) <= 0.0 then 0.0 else Low(flows, HALVINGS) + Width(HALVINGS + 1)
  }

  lemma WidthPositive(n: nat)
    ensures 0.0 < Width(n) <= IRR_CEILING
  {
  }

  lemma {:induction false} WidthAntitone(m: nat, n: nat)
    requires m <= n
    ensures Width(n) <= Width(m)
  {
    WidthPositive(n);
    if m < n {
      WidthAntitone(m, n - 1);
    }
  }

  /** 39 halvings are the first to bring the bracket below the precision. */
  lemma WidthAtStop()
    ensures Width(HALVINGS) < IRR_PRECISION <= Width(HALVINGS - 1)
    ensures Width(HALVINGS + 1) < IRR_PRECISION / 2.0
  {
    assert Width(13) == 0.5 / 8192.0;
    assert Width(26) == 0.5 / 8192.0 / 8192.0;
    assert Width(39) == 0.5 / 8192.0 / 8192.0 / 8192.0;
  }

  /**
   * The loop with its 200-iteration cap. It never returns "no rate": a flow without value at rate 0
   * gives 0. The cap is never what stops it, since the result is the 39-halvings midpoint.
   */
  method IrrMonthly(flows: seq<real>) returns (rate: real)
    ensures rate == Irr(flows)
  {
    var atZero := ComputeNpv(flows, 0.0);
    if atZero <= 0.0 {
      return 0.0;
    }
    WidthAtStop();
    var low, high := 0.0, IRR_CEILING;
    for i := 0 to IRR_MAX_ITERATIONS
      invariant i < HALVINGS
      invariant low == Low(flows, i) && high == High(flows, i)
    {
      WidthPositive(i);
      var mid := (low + high) / 2.0;
      var value := ComputeNpv(flows, mid);
      if value > 0.0 {
        low := mid;
      } else {
        high := mid;
      }
      if high - low < IRR_PRECISION {
        if i + 1 < HALVINGS { WidthAntitone(i + 1, HALVINGS - 1); }
        break;
      }
    }
    return (low + high) / 2.0;
  }

  /** The bracket keeps a positive value at its lower end and, unless it is still the ceiling, none at its upper end. */
  lemma {:induction false} BracketInvariant(flows: seq<real>, n: nat)
    requires Npv(flows, 0.0) > 0.0
    ensures 0.0 <= Low(flows, n) < High(flows, n) <= IRR_CEILING
    ensures Npv(flows, Low(flows, n)) > 0.0
    ensures High(flows, n) == IRR_CEILING || Npv(flows, High(flows, n)) <= 0.0
  {
    WidthPositive(n);
    if n > 0 {
      BracketInvariant(flows, n - 1);
    }
  }

  /** One outflow, then inflows that are never negative. */
  ghost predicate LoanShaped(flows: seq<real>) {
    flows != [] && NonNegative(flows[1..])
  }

  lemma ValueNeedsInflow(flows: seq<real>, low: real, high: real)
    requires LoanShaped(flows) && -1.0 < low < high
    ensures (exists i | 1 <= i < |flows| :: flows[i] > 0.0) || Npv(flows, low) == Npv(flows, high)
  {
    NpvAntitone(flows[1..], low, high);
    NpvAntitone(flows[1..], high, high);
    if forall i | 1 <= i < |flows| :: flows[i] <= 0.0 {
      assert Npv(flows[1..], low) == 0.0 == Npv(flows[1..], high);
      assert Npv(flows, low) == flows[0] == Npv(flows, high) by {
        DivideAntitone(0.0, 0.0, 1.0 + low, 1.0 + high);
      }
    }
  }

  /** The value has the sign of the distance to a root, so there is at most one root. */
  lemma SignAroundRoot(flows: seq<real>, root: real, rate: real)
    requires LoanShaped(flows) && Npv(flows, 0.0) > 0.0
    requires root >= 0.0 && Npv(flows, root) == 0.0 && rate >= 0.0
    ensures root > 0.0
    ensures Npv(flows, rate) > 0.0 <==> rate < root
    ensures Npv(flows, rate) == 0.0 <==> rate == root
  {
    ValueNeedsInflow(flows, 0.0, root);
    if rate < root {
      NpvStrictlyDecreasing(flows, rate, root);
    } else if rate > root {
      NpvStrictlyDecreasing(flows, root, rate);
    }
  }

  /** The computed rate is within 5e-13 of the exact root when that root is at most 0.5, and saturates above it. */
  lemma IrrNearRoot(flows: seq<real>, root: real)
    requires LoanShaped(flows) && Npv(flows, 0.0) > 0.0
    requires root >= 0.0 && Npv(flows, root) == 0.0
    ensures root <= IRR_CEILING ==> -IRR_PRECISION / 2.0 < Irr(flows) - root < IRR_PRECISION / 2.0
    ensures root > IRR_CEILING ==> Irr(flows) == IRR_CEILING - Width(HALVINGS + 1)
  {
    WidthAtStop();
    BracketInvariant(flows, HALVINGS);
    SignAroundRoot(flows, root, Low(flows, HALVINGS));
    SignAroundRoot(flows, root, High(flows, HALVINGS));
    if root > IRR_CEILING {
      SaturatedLow(flows, HALVINGS, root);
    }
  }

  lemma LoanShapedAntitone(flows: seq<real>, low: real, high: real)
    requires LoanShaped(flows) && -1.0 < low <= high
    ensures Npv(flows, high) <= Npv(flows, low)
  {
    NpvAntitone(flows[1..], low, high);
    NpvAntitone(flows[1..], high, high);
    DivideAntitone(Npv(flows[1..], low), Npv(flows[1..], high), 1.0 + low, 1.0 + high);
  }

  /**
   * Whether or not there is a root: the computed rate is on the side of any rate that the value there says,
   * up to 5e-13.
   */
  lemma IrrAgainstRate(flows: seq<real>, rate: real)
    requires LoanShaped(flows) && rate >= 0.0
    ensures Npv(flows, rate) > 0.0 && rate <= IRR_CEILING ==> Irr(flows) > rate - IRR_PRECISION / 2.0
    ensures Npv(flows, rate) <= 0.0 ==> Irr(flows) < rate + IRR_PRECISION / 2.0
  {
    WidthAtStop();
    LoanShapedAntitone(flows, 0.0, rate);
    if Npv(flows, 0.0) > 0.0 {
      BracketInvariant(flows, HALVINGS);
      var low, high := Low(flows, HALVINGS), High(flows, HALVINGS);
      if rate <= low { LoanShapedAntitone(flows, rate, low); }
      if high <= rate { LoanShapedAntitone(flows, high, rate); }
    }
  }

  lemma {:induction false} SaturatedLow(flows: seq<real>, n: nat, root: real)
    requires LoanShaped(flows) && Npv(flows, 0.0) > 0.0
    requires root > IRR_CEILING && Npv(flows, root) == 0.0
    ensures High(flows, n) == IRR_CEILING
  {
    if n > 0 {
      WidthPositive(n);
      SaturatedLow(flows, n - 1, root);
      SignAroundRoot(flows, root, Low(flows, n - 1) + Width(n));
    }
  }

  /** Every computed rate lies in [0, 0.5), and it is 0 exactly when there is no value at rate 0. */
  lemma IrrRange(flows: seq<real>)
    ensures 0.0 <= Irr(flows) < IRR_CEILING
    ensures Irr(flows) == 0.0 <==> Npv(flows, 0.0) <= 0.0
  {
    WidthPositive(HALVINGS);
    WidthPositive(HALVINGS + 1);
    if Npv(flows, 0.0) > 0.0 {
      BracketInvariant(flows, HALVINGS);
    }
  }

  ghost predicate DominatedInValue(a: seq<real>, b: seq<real>) {
    forall rate: real | 0.0 <= rate <= IRR_CEILING :: Npv(a, rate) <= Npv(b, rate)
  }

  lemma {:induction false} BracketsOrdered(a: seq<real>, b: seq<real>, n: nat)
    requires DominatedInValue(a, b) && Npv(a, 0.0) > 0.0
    ensures Low(a, n) == Low(b, n) || High(a, n) <= Low(b, n)
  {
    if n > 0 {
      WidthPositive(n);
      BracketInvariant(a, n - 1);
      BracketInvariant(b, n - 1);
      BracketsOrdered(a, b, n - 1);
    }
  }

  /**
   * The computed answer keeps the order of the values: a flow worth at least as much at every rate of
   * the bracket never gets a smaller rate. No shape is assumed, so this holds of the bisection path itself.
   */
  lemma IrrKeepsOrder(a: seq<real>, b: seq<real>)
    requires DominatedInValue(a, b)
    ensures Irr(a) <= Irr(b)
  {
    IrrRange(b);
    if Npv(a, 0.0) > 0.0 {
      BracketsOrdered(a, b, HALVINGS);
      WidthPositive(HALVINGS + 1);
    }
  }

  /** The two forms of that order used below: raising a flow, and appending one that is not negative. */
  lemma IrrRaised(a: seq<real>, b: seq<real>)
    requires PointwiseAtMost(a, b)
    ensures Irr(a) <= Irr(b)
  {
    forall rate: real | 0.0 <= rate <= IRR_CEILING ensures Npv(a, rate) <= Npv(b, rate) {
      NpvMonotone(a, b, rate);
    }
    IrrKeepsOrder(a, b);
  }

  lemma {:induction false} NpvAppend(flows: seq<real>, last: real, rate: real)
    requires rate > -1.0
    ensures Pow(1.0 + rate, |flows|) > 0.0
    ensures Npv(flows + [last], rate) == Npv(flows, rate) + last / Pow(1.0 + rate, |flows|)
  {
    var growth := 1.0 + rate;
    PowNonZero(growth, |flows|);
    if flows == [] {
      assert (flows + [last])[1..] == [];
      assert 0.0 / growth == 0.0;
    } else {
      assert (flows + [last])[1..] == flows[1..] + [last];
      NpvAppend(flows[1..], last, rate);
      DiscountOnce(Npv(flows[1..], rate), last, Pow(growth, |flows| - 1), growth);
    }
  }

  lemma IrrExtended(flows: seq<real>, last: real)
    requires last >= 0.0
    ensures Irr(flows) <= Irr(flows + [last])
  {
    forall rate: real | 0.0 <= rate <= IRR_CEILING ensures Npv(flows, rate) <= Npv(flows + [last], rate) {
      NpvAppend(flows, last, rate);
    }
    IrrKeepsOrder(flows, flows + [last]);
  }
}
