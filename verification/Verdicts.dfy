/** What a redline report says, in terms of the rows it is made from. */
module Verdicts {
  import opened EffectiveCost
  import opened Redline
  import opened Reports
  import opened Requests
  import opened RuleCatalog
  import opened Schedule
  import opened Wrappers

  // ---------------------------------------------------------------------------
  // The rows that count
  // ---------------------------------------------------------------------------

  predicate InForce(rule: Rule, today: Date) {
    && rule.status == Approved && rule.effectiveFrom <= today
    && (rule.effectiveUntil.Some? ==> today <= rule.effectiveUntil.value)
  }

  /** The approved hard rule in force today for the lender, the confirmed context and the product. */
  predicate Decides(d: Dossier, c: Catalog, today: Date, id: RuleId) {
    && id < |c.rules| && c.rules[id].kind == Hard && InForce(c.rules[id], today)
    && d.context.Some? && d.context.value != ""
    && c.rules[id].scope == Scope(c.qualification, d.context.value, d.profile.product)
  }

  /** An approved reference in force today for the confirmed context and the product, whichever the lender. */
  predicate Warns(d: Dossier, c: Catalog, today: Date, id: RuleId) {
    && id < |c.rules| && c.rules[id].kind == RuleKind.Reference && InForce(c.rules[id], today)
    && d.context.Some? && d.context.value != ""
    && c.rules[id].scope.context == d.context.value && c.rules[id].scope.product == d.profile.product
  }

  predicate AboutBorrower(r: Resolution) { r.subjectRole in {None, Some("primary_borrower")} }

  predicate IsNewest(rows: seq<Resolution>, key: string, i: int) {
    && 0 <= i < |rows| && AboutBorrower(rows[i]) && rows[i].fieldKey == key
    && forall k | i < k < |rows| :: !(AboutBorrower(rows[k]) && rows[k].fieldKey == key)
  }

  /** What the newest resolution about the primary borrower says of a field, if there is one. */
  ghost predicate IsConfirmedAs(rows: seq<Resolution>, key: string, v: Option<FieldValue>) {
    if v.Some? then exists i :: IsNewest(rows, key, i) && rows[i].value == v.value
    else forall i | 0 <= i < |rows| :: !(AboutBorrower(rows[i]) && rows[i].fieldKey == key)
  }

  datatype Confirmations = Confirmations(
    amount: Option<FieldValue>, term: Option<FieldValue>, rate: Option<FieldValue>,
    repayment: Option<FieldValue>, fees: Option<FieldValue>, overdueRate: Option<FieldValue>)

  ghost predicate AreConfirmed(rows: seq<Resolution>, k: Confirmations) {
    && IsConfirmedAs(rows, "loan_amount", k.amount) && IsConfirmedAs(rows, "loan_term", k.term)
    && IsConfirmedAs(rows, "interest_rate", k.rate) && IsConfirmedAs(rows, "repayment_method", k.repayment)
    && IsConfirmedAs(rows, "loan_fees", k.fees) && IsConfirmedAs(rows, "overdue_interest_rate", k.overdueRate)
  }

  function NumberOf(v: Option<FieldValue>): Option<real> {
    if v.Some? then v.value.number else None
  }

  lemma NewestSays(rows: seq<Resolution>, key: string, i: int)
    ensures forall r: Resolution :: AboutBorrower(r) <==> ForPrimaryBorrower(r)
    ensures IsNewest(rows, key, i) <==> Newest(rows, i) && rows[i].fieldKey == key
  {
    forall r: Resolution ensures AboutBorrower(r) <==> ForPrimaryBorrower(r) {
      assert r.subjectRole == Some("primary_borrower") <==>
          r.subjectRole.Some? && r.subjectRole.value == "primary_borrower";
    }
  }

  lemma ConfirmedSays(rows: seq<Resolution>, key: string, v: Option<FieldValue>)
    ensures IsConfirmedAs(rows, key, v) <==> v == if key in Confirmed(rows) then Some(Confirmed(rows)[key]) else None
  {
    ConfirmedIsNewest(rows);
    forall i ensures IsNewest(rows, key, i) <==> Newest(rows, i) && rows[i].fieldKey == key {
      NewestSays(rows, key, i);
    }
    NewestSays(rows, key, 0);
    if key in Confirmed(rows) {
      var i :| Newest(rows, i) && rows[i].fieldKey == key;
      assert IsNewest(rows, key, i);
    }
  }

  /** Which confirmed value feeds which input; the term drops its fraction, toward zero. */
  lemma InputsSay(rows: seq<Resolution>, k: Confirmations)
    requires AreConfirmed(rows, k)
    ensures var i := InputsOf(Confirmed(rows));
            && i.loanAmount == NumberOf(k.amount) && i.annualRatePct == NumberOf(k.rate)
            && i.overdueRatePct == NumberOf(k.overdueRate)
            && i.repaymentMethod == (if k.repayment.Some? then k.repayment.value.text else None)
            && i.mandatoryFees == (if k.fees.Some? then k.fees.value.feeAmount else None)
            && (i.loanTerm.Some? <==> NumberOf(k.term).Some?)
            && (i.loanTerm.Some? ==>
                  var x, n := NumberOf(k.term).value, i.loanTerm.value as real;
                  if x >= 0.0 then n <= x < n + 1.0 else n - 1.0 < x <= n)
  {
    ConfirmedSays(rows, "loan_amount", k.amount);
    ConfirmedSays(rows, "loan_term", k.term);
    ConfirmedSays(rows, "interest_rate", k.rate);
    ConfirmedSays(rows, "repayment_method", k.repayment);
    ConfirmedSays(rows, "loan_fees", k.fees);
    ConfirmedSays(rows, "overdue_interest_rate", k.overdueRate);
  }

  // ---------------------------------------------------------------------------
  // LPR
  // ---------------------------------------------------------------------------

  /** A row of a published batch, and not of a demo batch in production. */
  predicate OnOffer(batches: seq<LprBatch>, production: bool, row: LprRow) {
    && row.id.batch < |batches| && batches[row.id.batch].published
    && !(production && batches[row.id.batch].demoOnly)
    && row.id.index < |batches[row.id.batch].entries| && row.entry == batches[row.id.batch].entries[row.id.index]
  }

  predicate Before(a: LprId, b: LprId) { a.batch < b.batch || (a.batch == b.batch && a.index < b.index) }

  lemma {:induction false} RowsOnOffer(batches: seq<LprBatch>, production: bool)
    ensures var rows := CurrentLprRows(batches, production);
            && (forall row :: row in rows <==> OnOffer(batches, production, row))
            && forall i, j | 0 <= i < j < |rows| :: Before(rows[i].id, rows[j].id)
  {
    if batches != [] {
      var last := |batches| - 1;
      var front := batches[..last];
      RowsOnOffer(front, production);
      var before, added := CurrentLprRows(front, production), BatchRows(last, batches[last].entries);
      assert forall row :: OnOffer(front, production, row) ==> row.id.batch < last;
      assert forall row :: OnOffer(batches, production, row) && row.id.batch < last ==> OnOffer(front, production, row);
      forall row ensures row in added <==>
          row.id.batch == last && row.id.index < |batches[last].entries|
          && row.entry == batches[last].entries[row.id.index]
      {
        if row.id.batch == last && row.id.index < |batches[last].entries|
            && row.entry == batches[last].entries[row.id.index] {
          assert added[row.id.index] == row;
        }
      }
      forall i, j | 0 <= i < j < |before + added| ensures Before((before + added)[i].id, (before + added)[j].id) {
        if i < |before| { assert before[i] in before; }
      }
    }
  }

  /** A request of an administrator offers exactly the rows of the batch that it publishes. */
  lemma CatalogOffers(c: Catalog, request: CatalogRequest, row: LprRow)
    ensures OnOffer(ServeCatalog(c, request).lprBatches, c.production, row) <==>
              || OnOffer(c.lprBatches, c.production, row)
              || (request.PublishLpr? && request.batch < |c.lprBatches| && row.id.batch == request.batch
                  && OnOffer([LprBatch(true, c.lprBatches[request.batch].demoOnly,
                                       c.lprBatches[request.batch].entries)], c.production,
                             LprRow(LprId(0, row.id.index), row.entry)))
    ensures request.ImportLpr? ==>
              ServeCatalog(c, request).lprBatches == c.lprBatches + [LprBatch(false, false, request.entries)]
    ensures ServeCatalog(c, request).production == c.production
            && ServeCatalog(c, request).qualification == c.qualification
  {
  }

  predicate AppliesOn(c: Catalog, row: LprRow, asOf: Date) {
    OnOffer(c.lprBatches, c.production, row) && row.entry.tenor == OneYear && row.entry.effectiveDate <= asOf
  }

  /** The latest one-year row on offer that is effective by the date; of several, the one imported first. */
  ghost predicate IsLprOn(c: Catalog, asOf: Date, lpr: Option<LprRow>) {
    if lpr.None? then forall row :: !AppliesOn(c, row, asOf)
    else
      && AppliesOn(c, lpr.value, asOf)
      && forall row | AppliesOn(c, row, asOf) ::
           || row.entry.effectiveDate < lpr.value.entry.effectiveDate
           || (row.entry.effectiveDate == lpr.value.entry.effectiveDate && !Before(row.id, lpr.value.id))
  }

  /** Row i comes first among the eligible rows of the latest date. */
  ghost predicate IsBest(rows: seq<LprRow>, asOf: Date, i: int) {
    && 0 <= i < |rows| && Eligible(rows[i], asOf)
    && (forall k | 0 <= k < |rows| && Eligible(rows[k], asOf) ::
          rows[k].entry.effectiveDate <= rows[i].entry.effectiveDate)
    && (forall k | 0 <= k < i && Eligible(rows[k], asOf) ::
          rows[k].entry.effectiveDate < rows[i].entry.effectiveDate)
  }

  lemma BestIsLprOn(c: Catalog, asOf: Date, rows: seq<LprRow>, i: int)
    requires rows == LprRows(c) && IsBest(rows, asOf, i)
    requires forall row :: row in rows <==> OnOffer(c.lprBatches, c.production, row)
    requires forall m, n | 0 <= m < n < |rows| :: Before(rows[m].id, rows[n].id)
    ensures IsLprOn(c, asOf, Some(rows[i]))
  {
    assert rows[i] in rows;
    forall row | AppliesOn(c, row, asOf)
      ensures row.entry.effectiveDate < rows[i].entry.effectiveDate
          || (row.entry.effectiveDate == rows[i].entry.effectiveDate && !Before(row.id, rows[i].id))
    {
      assert row in rows;
      var k :| 0 <= k < |rows| && rows[k] == row;
      assert k > i ==> Before(rows[i].id, rows[k].id);
    }
  }

  lemma SelectedIsBest(rows: seq<LprRow>, asOf: Date) returns (i: int)
    requires SelectLpr(rows, asOf).Some?
    ensures IsBest(rows, asOf, i) && rows[i] == SelectLpr(rows, asOf).value
  {
    SelectLprIsLatest(rows, asOf);
    i :| IsBest(rows, asOf, i) && rows[i] == SelectLpr(rows, asOf).value;
  }

  lemma NoneIsLprOn(c: Catalog, asOf: Date, rows: seq<LprRow>)
    requires rows == LprRows(c) && SelectLpr(rows, asOf).None?
    requires forall row :: row in rows <==> OnOffer(c.lprBatches, c.production, row)
    ensures IsLprOn(c, asOf, None)
  {
    SelectLprIsLatest(rows, asOf);
    forall row | row in rows ensures !AppliesOn(c, row, asOf) {
      var k :| 0 <= k < |rows| && rows[k] == row;
      assert !Eligible(rows[k], asOf);
    }
  }

  lemma SelectedIsLprOn(c: Catalog, asOf: Date, rows: seq<LprRow>)
    requires rows == LprRows(c)
    ensures IsLprOn(c, asOf, SelectLpr(rows, asOf))
  {
    RowsOnOffer(c.lprBatches, c.production);
    if SelectLpr(rows, asOf).Some? {
      var i := SelectedIsBest(rows, asOf);
      BestIsLprOn(c, asOf, rows, i);
    } else {
      NoneIsLprOn(c, asOf, rows);
    }
  }

  lemma OneLprOn(c: Catalog, asOf: Date, a: Option<LprRow>, b: Option<LprRow>)
    requires IsLprOn(c, asOf, a) && IsLprOn(c, asOf, b)
    ensures a == b
  {
    if a.Some? && b.Some? {
      assert a.value.id == b.value.id;
    }
  }

  lemma LprSays(c: Catalog, asOf: Date, lpr: Option<LprRow>)
    ensures IsLprOn(c, asOf, lpr) <==> lpr == SelectLpr(LprRows(c), asOf)
  {
    SelectedIsLprOn(c, asOf, LprRows(c));
    if IsLprOn(c, asOf, lpr) {
      OneLprOn(c, asOf, lpr, SelectLpr(LprRows(c), asOf));
    }
  }

  /** The day whose LPR a report reads: the planned signing, or else today. */
  function LprDay(d: Dossier, today: Date): Date {
    if d.profile.signingDate.Some? then d.profile.signingDate.value else today
  }

  // ---------------------------------------------------------------------------
  // The verdict
  // ---------------------------------------------------------------------------

  lemma DecidesIsMatching(d: Dossier, c: Catalog, today: Date, id: RuleId)
    requires d.context.Some? && d.context.value != ""
    ensures Decides(d, c, today, id) <==>
              && id < |c.rules|
              && Matches(c.rules[id], Scope(c.qualification, d.context.value, d.profile.product), today)
  {
  }

  /** The one rule that decides is selected; without one the reason says whether a context is confirmed. */
  lemma SelectionSays(d: Dossier, c: Catalog, today: Date)
    requires Unambiguous(c.rules)
    ensures var s := LiveRedline(d, c, today).selection;
            && (forall id: RuleId :: Decides(d, c, today, id) <==> s.rule == Some(id))
            && (s.reason == Unique <==> s.rule.Some?)
            && (s.reason == NoRuleContext <==> d.context.None? || d.context.value == "")
            && s.reason != MultipleMatch
  {
    var s := SelectPrimaryRule(c.rules, c.qualification, d.context, d.profile.product, today);
    SelectionIsExact(c.rules, c.qualification, d.context, d.profile.product, today);
    forall id: RuleId ensures Decides(d, c, today, id) <==> s.rule == Some(id) {
      if d.context.Some? && d.context.value != "" {
        DecidesIsMatching(d, c, today, id);
      }
    }
  }

  /** The verdict of a limit on the rate: without a rate or a limit there is none. */
  function RateVerdict(rate: Option<real>, limit: Option<real>, over: Verdict): Verdict {
    if rate.None? || limit.None? then InsufficientData
    else if rate.value > limit.value then over else NotTriggered
  }

  /** The limit that a rule on the rate sets, in percent. */
  function LimitOf(formula: Calc, lpr: Option<LprRow>): Option<real>
    requires !formula.EffectiveCostLimit?
  {
    match formula
    case AnnualRateLimit(threshold) => Some(threshold)
    case LprMultipleLimit(multiplier) =>
      if lpr.Some? then Some(lpr.value.entry.valuePct * multiplier) else None
  }

  lemma InPercent(rate: real, value: real, multiplier: real)
    ensures RateFrac(value) * multiplier * 100.0 == value * multiplier
    ensures RateFrac(rate) > RateFrac(value) * multiplier <==> rate > value * multiplier
  {
    var product := value * multiplier;
    assert value / 100.0 * multiplier == product / 100.0;
  }

  lemma LprRuleSays(rate: real, value: real, multiplier: real)
    ensures LimitOnLprMultiple(Some(rate), Some(value), multiplier) ==
              Compared(if rate > value * multiplier then Triggered else NotTriggered, rate, value * multiplier,
                       Some(value))
  {
    InPercent(rate, value, multiplier);
    var limit := RateFrac(value) * multiplier;
    assert limit * 100.0 == value * multiplier;
  }

  lemma RateRuleSays(formula: Calc, inputs: Inputs, lpr: Option<LprRow>, growth: Growth)
    requires !formula.EffectiveCostLimit?
    ensures var e := RuleEvaluation(formula, inputs, ValueOf(lpr), growth);
            && !e.DivisionByZero? && !Downgrade(e).DivisionByZero?
            && VerdictOf(e) == RateVerdict(inputs.annualRatePct, LimitOf(formula, lpr), Triggered)
            && VerdictOf(Downgrade(e)) == RateVerdict(inputs.annualRatePct, LimitOf(formula, lpr), RiskWarning)
            && (e.Insufficient? ==>
                  && (InterestRate in e.missing <==> inputs.annualRatePct.None?)
                  && (Lpr in e.missing <==> LimitOf(formula, lpr).None?))
            && (e.Compared? ==> e.ratePct == inputs.annualRatePct.value && e.limitPct == LimitOf(formula, lpr).value)
  {
    if inputs.annualRatePct.Some? && formula.LprMultipleLimit? && lpr.Some? {
      LprRuleSays(inputs.annualRatePct.value, lpr.value.entry.valuePct, formula.multiplier);
    }
  }

  /**
   * The verdict of a report from its rows: the rule that decides, the newest confirmed rate of the borrower and
   * the LPR of the day. The report is triggered iff the rate exceeds the threshold, or the LPR times the multiplier.
   */
  lemma VerdictSays(d: Dossier, c: Catalog, today: Date, id: RuleId, k: Confirmations, lpr: Option<LprRow>)
    requires Unambiguous(c.rules) && Decides(d, c, today, id) && !c.rules[id].formula.EffectiveCostLimit?
    requires AreConfirmed(d.resolutions, k) && IsLprOn(c, LprDay(d, today), lpr)
    ensures var live := LiveRedline(d, c, today);
            && live.primary.Some? && !live.primary.value.DivisionByZero?
            && OverallState(live) == RateVerdict(NumberOf(k.rate), LimitOf(c.rules[id].formula, lpr), Triggered)
  {
    SelectionSays(d, c, today);
    InputsSay(d.resolutions, k);
    LprSays(c, LprDay(d, today), lpr);
    RateRuleSays(c.rules[id].formula, InputsOf(Confirmed(d.resolutions)), lpr, c.growth);
  }

  /**
   * The same for a rule on the effective cost, with exact arithmetic: the report follows the exact costs of the
   * confirmed loan, but for 6e-10 of a percent around the threshold.
   */
  lemma CostVerdictSays(d: Dossier, c: Catalog, today: Date, id: RuleId, i: Inputs, thresholdPct: real, days: int)
    requires Unambiguous(c.rules) && Decides(d, c, today, id)
    requires c.rules[id].formula == Calc.EffectiveCostLimit(thresholdPct, days) && c.growth == EXACT_GROWTH
    requires i == InputsOf(Confirmed(d.resolutions)) && Costable(i, days) && i.annualRatePct.value >= 0.0
    requires days > 0 ==> i.overdueRatePct.value >= 0.0
    ensures var live := LiveRedline(d, c, today);
            && live.primary.Some? && live.primary.value.Costed?
            && (COST_PRECISION <= thresholdPct <= 600.0 - COST_PRECISION ==>
                  && (CostsMoreThan(NormalFlows(i), thresholdPct + COST_PRECISION) ==> OverallState(live).Triggered?)
                  && (!CostsMoreThan(NormalFlows(i), thresholdPct - COST_PRECISION) ==>
                        && !OverallState(live).Triggered?
                        && (days <= 0 ==> OverallState(live).NotTriggered?)
                        && (days > 0 && CostsMoreThan(OverdueFlows(i, days), thresholdPct + COST_PRECISION) ==>
                              OverallState(live).RiskWarning?)
                        && (days > 0 && !CostsMoreThan(OverdueFlows(i, days), thresholdPct - COST_PRECISION) ==>
                              OverallState(live).NotTriggered?)))
  {
    SelectionSays(d, c, today);
    ExactGrowthGivesExactCost(i, days, thresholdPct);
    if thresholdPct > 0.0 {
      VerdictFollowsExactCosts(i, days, thresholdPct);
    }
  }

  /** Exactly the references in force are listed, in order, each once. */
  lemma ReferencesSay(d: Dossier, c: Catalog, today: Date)
    ensures var refs := LiveRedline(d, c, today).references;
            && (forall n | 0 <= n < |refs| :: Warns(d, c, today, refs[n].0))
            && (forall id: RuleId | Warns(d, c, today, id) :: exists n | 0 <= n < |refs| :: refs[n].0 == id)
            && forall m, n | 0 <= m < n < |refs| :: refs[m].0 < refs[n].0
  {
    var q, refs := QueryOf(d, c, today), LiveRedline(d, c, today).references;
    var lpr := ValueOf(SelectLpr(LprRows(c), LprAsOf(q)));
    ReferencesOnlyWarn(c.rules, q, lpr, refs);
    forall id: RuleId | Warns(d, c, today, id) ensures exists n | 0 <= n < |refs| :: refs[n].0 == id {
      EachReferenceIsEvaluated(c.rules, q, lpr, refs, id);
    }
  }

  /** A reference on the rate warns of exactly the rates over its limit, and never triggers. */
  lemma WarningSays(d: Dossier, c: Catalog, today: Date, n: nat, k: Confirmations, lpr: Option<LprRow>)
    requires n < |LiveRedline(d, c, today).references|
    requires AreConfirmed(d.resolutions, k) && IsLprOn(c, LprDay(d, today), lpr)
    ensures var (id, e) := LiveRedline(d, c, today).references[n];
            && id < |c.rules|
            && (!c.rules[id].formula.EffectiveCostLimit? ==>
                  && !e.DivisionByZero?
                  && VerdictOf(e) == RateVerdict(NumberOf(k.rate), LimitOf(c.rules[id].formula, lpr), RiskWarning))
            && (e.DivisionByZero? || !VerdictOf(e).Triggered?)
  {
    var q, refs := QueryOf(d, c, today), LiveRedline(d, c, today).references;
    LprSays(c, LprDay(d, today), lpr);
    ReferencesOnlyWarn(c.rules, q, ValueOf(lpr), refs);
    InputsSay(d.resolutions, k);
    var formula := c.rules[refs[n].0].formula;
    if !formula.EffectiveCostLimit? {
      RateRuleSays(formula, InputsOf(Confirmed(d.resolutions)), lpr, c.growth);
    }
  }

  /** As a reference an evaluation only loses its trigger, and keeps its figures. */
  lemma DowngradeSays(e: Evaluation)
    ensures var r := Downgrade(e);
            && (r.DivisionByZero? <==> e.DivisionByZero?)
            && (!e.DivisionByZero? ==>
                  VerdictOf(r) == if VerdictOf(e) == Triggered then RiskWarning else VerdictOf(e))
            && (e.Insufficient? ==> r == e)
            && (e.Compared? ==> r == Compared(r.verdict, e.ratePct, e.limitPct, e.lprPct))
            && (e.Costed? ==> r == Costed(r.verdict, e.figures))
  {
  }

  /** A reference on the effective cost warns of loans whose exact costs are over its threshold, overdue or not. */
  lemma CostWarningSays(d: Dossier, c: Catalog, today: Date, n: nat, i: Inputs, thresholdPct: real, days: int)
    requires n < |LiveRedline(d, c, today).references| && LiveRedline(d, c, today).references[n].0 < |c.rules|
    requires c.rules[LiveRedline(d, c, today).references[n].0].formula == Calc.EffectiveCostLimit(thresholdPct, days)
    requires c.growth == EXACT_GROWTH && i == InputsOf(Confirmed(d.resolutions))
    requires Costable(i, days) && i.annualRatePct.value >= 0.0 && (days > 0 ==> i.overdueRatePct.value >= 0.0)
    ensures var e := LiveRedline(d, c, today).references[n].1;
            && e.Costed? && e.figures == CostFigures(i, days)
            && (COST_PRECISION <= thresholdPct <= 600.0 - COST_PRECISION ==>
                  && (CostsMoreThan(NormalFlows(i), thresholdPct + COST_PRECISION) ==> e.verdict == RiskWarning)
                  && (days > 0 && CostsMoreThan(OverdueFlows(i, days), thresholdPct + COST_PRECISION) ==>
                        e.verdict == RiskWarning)
                  && (!CostsMoreThan(NormalFlows(i), thresholdPct - COST_PRECISION)
                      && (days > 0 ==> !CostsMoreThan(OverdueFlows(i, days), thresholdPct - COST_PRECISION)) ==>
                        e.verdict == NotTriggered))
  {
    var q, refs := QueryOf(d, c, today), LiveRedline(d, c, today).references;
    var lpr := ValueOf(SelectLpr(LprRows(c), LprAsOf(q)));
    ReferencesOnlyWarn(c.rules, q, lpr, refs);
    ExactGrowthGivesExactCost(i, days, thresholdPct);
    DowngradeSays(EvaluationIn(q, Calc.EffectiveCostLimit(thresholdPct, days), lpr));
    if thresholdPct > 0.0 {
      VerdictFollowsExactCosts(i, days, thresholdPct);
    }
  }

  // ---------------------------------------------------------------------------
  // The report
  // ---------------------------------------------------------------------------

  predicate CannotBeEvaluated(r: Result) {
    || (r.primary.Some? && r.primary.value.DivisionByZero?)
    || exists n | 0 <= n < |r.references| :: r.references[n].1.DivisionByZero?
  }

  /** In production, a demo rule that decides or warns keeps a report from being made. */
  ghost predicate DemoRuleCounts(d: Dossier, c: Catalog, today: Date) {
    c.production && exists id: RuleId ::
      id < |c.rules| && c.rules[id].demoOnly && (Decides(d, c, today, id) || Warns(d, c, today, id))
  }

  lemma DemoSays(d: Dossier, c: Catalog, today: Date)
    requires Unambiguous(c.rules)
    ensures DemoRefused(LiveRedline(d, c, today), c) <==> DemoRuleCounts(d, c, today)
  {
    SelectionSays(d, c, today);
    ReferencesSay(d, c, today);
  }

  /** A current run becomes stale for a new one; a stale run stays as it is. */
  ghost predicate Superseded(before: RedlineRun, after: RedlineRun) {
    after == if before.status == Stale then before else before.(status := Stale, staleReason := Some(NewRun))
  }

  ghost predicate Freezes(run: RedlineRun, d: Dossier, c: Catalog, today: Date, lpr: Option<LprRow>) {
    && run.status == Current && run.staleReason.None? && run.result == LiveRedline(d, c, today)
    && run.result.lpr == lpr && run.result.lprAsOf == LprDay(d, today)
    && (run.result.lprProvisional <==> d.profile.signingDate.None?)
    && (forall id: RuleId :: run.ruleId == Some(id) <==> Decides(d, c, today, id))
    && run.ruleSnapshot == (if run.ruleId.Some? && run.ruleId.value < |c.rules|
                            then Some(c.rules[run.ruleId.value]) else None)
    && |run.referenceSnapshots| == |run.result.references|
    && (forall n | 0 <= n < |run.referenceSnapshots| ::
          run.result.references[n].0 < |c.rules| && run.referenceSnapshots[n] == c.rules[run.result.references[n].0])
    && run.query.evaluationDate == today && run.query.signingDate == d.profile.signingDate
    && run.query.context == d.context && run.query.product == d.profile.product
    && run.query.qualification == c.qualification && run.query.confirmed == Confirmed(d.resolutions)
  }
  lemma SnapshotFreezes(d: Dossier, c: Catalog, today: Date, lpr: Option<LprRow>, run: RedlineRun)
    requires Unambiguous(c.rules) && IsLprOn(c, LprDay(d, today), lpr)
    requires run == SnapshotOf(LiveRedline(d, c, today), QueryOf(d, c, today), c.rules)
    ensures Freezes(run, d, c, today, lpr)
  {
    LprSays(c, LprDay(d, today), lpr);
    SelectionSays(d, c, today);
  }

  lemma ReportIsAppended(d: Dossier, c: Catalog, docs: set<DocId>, today: Date, run: RedlineRun, after: Dossier)
    requires (after, Accepted) == Serve(d, c, docs, today, CreateRedlineRun)
    requires run == SnapshotOf(LiveRedline(d, c, today), QueryOf(d, c, today), c.rules)
    ensures after == d.(redlineRuns := after.redlineRuns)
    ensures |after.redlineRuns| == |d.redlineRuns| + 1 && after.redlineRuns[|d.redlineRuns|] == run
    ensures forall n | 0 <= n < |d.redlineRuns| :: Superseded(d.redlineRuns[n], after.redlineRuns[n])
  {
  }

  /**
   * A report is made unless an evaluation divides by zero or a demo rule counts. It is then the newest run and the
   * only current one, and freezes today's evaluation, its rules and the LPR of its day.
   */
  lemma ReportSays(d: Dossier, c: Catalog, docs: set<DocId>, today: Date, lpr: Option<LprRow>)
    requires Unambiguous(c.rules) && IsLprOn(c, LprDay(d, today), lpr)
    ensures var (after, outcome), live := Serve(d, c, docs, today, CreateRedlineRun), LiveRedline(d, c, today);
            && (outcome.ServerError? <==> CannotBeEvaluated(live))
            && (outcome.Unprocessable? <==> !CannotBeEvaluated(live) && DemoRuleCounts(d, c, today))
            && (outcome.Accepted? <==> !CannotBeEvaluated(live) && !DemoRuleCounts(d, c, today))
            && (!outcome.Accepted? ==> after == d)
            && (outcome.Accepted? ==>
                  var runs := after.redlineRuns;
                  && after == d.(redlineRuns := runs) && |runs| == |d.redlineRuns| + 1
                  && (forall n | 0 <= n < |d.redlineRuns| :: Superseded(d.redlineRuns[n], runs[n]))
                  && Freezes(runs[|d.redlineRuns|], d, c, today, lpr))
  {
    var (after, outcome) := Serve(d, c, docs, today, CreateRedlineRun);
    DemoSays(d, c, today);
    if outcome.Accepted? {
      var run := SnapshotOf(LiveRedline(d, c, today), QueryOf(d, c, today), c.rules);
      ReportIsAppended(d, c, docs, today, run, after);
      SnapshotFreezes(d, c, today, lpr, run);
    }
  }
}
