/** LPR selection, confirmed inputs, and the aggregate redline evaluation. */
module Redline {
  import opened EffectiveCost
  import opened RuleCatalog
  import opened Schedule
  import opened Wrappers

  // ---------------------------------------------------------------------------
  // LPR
  // ---------------------------------------------------------------------------

  datatype Tenor = OneYear | FiveYears

  datatype LprEntry = LprEntry(effectiveDate: Date, tenor: Tenor, valuePct: real)

  /** An imported file: its entries never change, and publishing makes all of them selectable. */
  datatype LprBatch = LprBatch(published: bool, demoOnly: bool, entries: seq<LprEntry>)

  datatype LprId = LprId(batch: nat, index: nat)

  datatype LprRow = LprRow(id: LprId, entry: LprEntry)

  function BatchRows(batch: nat, entries: seq<LprEntry>): seq<LprRow> {
    seq(|entries|, k requires 0 <= k < |entries| => LprRow(LprId(batch, k), entries[k]))
  }

  /** The rows of the published batches; demo batches are left out in production. */
  function CurrentLprRows(batches: seq<LprBatch>, production: bool): seq<LprRow> {
    if batches == [] then []
    else
      var last := |batches| - 1;
      CurrentLprRows(batches[..last], production)
      + if batches[last].published && !(production && batches[last].demoOnly)
        then BatchRows(last, batches[last].entries) else []
  }

  predicate Eligible(row: LprRow, asOf: Date) {
    row.entry.tenor.OneYear? && row.entry.effectiveDate <= asOf
  }

  /** The eligible row with the greatest effective date; the earliest in the list among equals. */
  function SelectLpr(rows: seq<LprRow>, asOf: Date): Option<LprRow> {
    if rows == [] then None
    else
      var last := rows[|rows| - 1];
      var best := SelectLpr(rows[..|rows| - 1], asOf);
      if Eligible(last, asOf) && (best.None? || last.entry.effectiveDate > best.value.entry.effectiveDate)
      then Some(last) else best
  }

  lemma {:induction false} SelectLprIsLatest(rows: seq<LprRow>, asOf: Date)
    ensures SelectLpr(rows, asOf).None? <==> forall i | 0 <= i < |rows| :: !Eligible(rows[i], asOf)
    ensures SelectLpr(rows, asOf).Some? ==>
              exists i | 0 <= i < |rows| ::
                && rows[i] == SelectLpr(rows, asOf).value && Eligible(rows[i], asOf)
                && (forall k | 0 <= k < |rows| && Eligible(rows[k], asOf) ::
                      rows[k].entry.effectiveDate <= rows[i].entry.effectiveDate)
                && (forall k | 0 <= k < i && Eligible(rows[k], asOf) ::
                      rows[k].entry.effectiveDate < rows[i].entry.effectiveDate)
  {
    if rows != [] {
      var front := rows[..|rows| - 1];
      SelectLprIsLatest(front, asOf);
      assert forall i | 0 <= i < |front| :: front[i] == rows[i];
      if SelectLpr(rows, asOf).Some? {
        if SelectLpr(rows, asOf) == SelectLpr(front, asOf) {
          var i :| 0 <= i < |front|
            && front[i] == SelectLpr(front, asOf).value && Eligible(front[i], asOf)
            && (forall k | 0 <= k < |front| && Eligible(front[k], asOf) ::
                  front[k].entry.effectiveDate <= front[i].entry.effectiveDate)
            && (forall k | 0 <= k < i && Eligible(front[k], asOf) ::
                  front[k].entry.effectiveDate < front[i].entry.effectiveDate);
          assert rows[i] == front[i];
        } else {
          assert rows[|rows| - 1] == SelectLpr(rows, asOf).value;
        }
      }
    }
  }

  // ---------------------------------------------------------------------------
  // Confirmed inputs
  // ---------------------------------------------------------------------------

  /** A confirmed value with the readings the engine takes of it; None is a reading that does not parse. */
  datatype FieldValue = FieldValue(text: Option<string>, number: Option<real>, feeAmount: Option<real>)

  datatype Resolution = Resolution(fieldKey: string, subjectRole: Option<string>, value: FieldValue)

  predicate ForPrimaryBorrower(r: Resolution) {
    r.subjectRole.None? || r.subjectRole.value == "primary_borrower"
  }

  /** No later row about the primary borrower has the same field key. */
  ghost predicate Newest(rows: seq<Resolution>, i: int) {
    && 0 <= i < |rows| && ForPrimaryBorrower(rows[i])
    && forall k | i < k < |rows| :: !(ForPrimaryBorrower(rows[k]) && rows[k].fieldKey == rows[i].fieldKey)
  }

  /** Each field key with a row about the primary borrower has the value of its newest such row. */
  ghost predicate IsConfirmed(rows: seq<Resolution>, confirmed: map<string, FieldValue>) {
    && (forall i | 0 <= i < |rows| && ForPrimaryBorrower(rows[i]) :: rows[i].fieldKey in confirmed)
    && (forall i | 0 <= i < |rows| && Newest(rows, i) ::
          rows[i].fieldKey in confirmed && confirmed[rows[i].fieldKey] == rows[i].value)
    && (forall key <- confirmed :: exists i :: Newest(rows, i) && rows[i].fieldKey == key)
  }

  lemma ConfirmedIsUnique(rows: seq<Resolution>, a: map<string, FieldValue>, b: map<string, FieldValue>)
    requires IsConfirmed(rows, a) && IsConfirmed(rows, b)
    ensures a == b
  {
    forall key | key in a || key in b ensures key in a && key in b && a[key] == b[key] {
      var i :| Newest(rows, i) && rows[i].fieldKey == key;
    }
  }

  /** Rows in order of creation, each overwriting what the dictionary held for its key. */
  function Confirmed(rows: seq<Resolution>): map<string, FieldValue> {
    if rows == [] then map[]
    else
      var before, last := Confirmed(rows[..|rows| - 1]), rows[|rows| - 1];
      if ForPrimaryBorrower(last) then before[last.fieldKey := last.value] else before
  }

  lemma {:induction false} NewestIsConfirmed(rows: seq<Resolution>, i: int)
    requires 0 <= i < |rows| && ForPrimaryBorrower(rows[i])
    ensures rows[i].fieldKey in Confirmed(rows)
    ensures Newest(rows, i) ==> Confirmed(rows)[rows[i].fieldKey] == rows[i].value
    decreases |rows|
  {
    var front := rows[..|rows| - 1];
    if i < |front| {
      assert front[i] == rows[i];
      NewestIsConfirmed(front, i);
      assert Newest(rows, i) ==> Newest(front, i);
    }
  }

  lemma {:induction false} ConfirmedHasNewest(rows: seq<Resolution>, key: string)
    requires key in Confirmed(rows)
    ensures exists i :: Newest(rows, i) && rows[i].fieldKey == key
  {
    var front, last := rows[..|rows| - 1], |rows| - 1;
    if ForPrimaryBorrower(rows[last]) && key == rows[last].fieldKey {
      assert Newest(rows, last);
    } else {
      ConfirmedHasNewest(front, key);
      var i :| Newest(front, i) && front[i].fieldKey == key;
      assert Newest(rows, i);
    }
  }

  lemma ConfirmedIsNewest(rows: seq<Resolution>)
    ensures IsConfirmed(rows, Confirmed(rows))
  {
    forall i | 0 <= i < |rows| && ForPrimaryBorrower(rows[i])
      ensures rows[i].fieldKey in Confirmed(rows)
      ensures Newest(rows, i) ==> Confirmed(rows)[rows[i].fieldKey] == rows[i].value
    {
      NewestIsConfirmed(rows, i);
    }
    forall key <- Confirmed(rows) ensures exists i :: Newest(rows, i) && rows[i].fieldKey == key {
      ConfirmedHasNewest(rows, key);
    }
  }

  method ConfirmedResolutions(rows: seq<Resolution>) returns (latest: map<string, FieldValue>)
    ensures latest == Confirmed(rows)
  {
    latest := map[];
    for i := 0 to |rows|
      invariant latest == Confirmed(rows[..i])
    {
      assert rows[..i + 1][..i] == rows[..i];
      if !ForPrimaryBorrower(rows[i]) {
        continue;
      }
      latest := latest[rows[i].fieldKey := rows[i].value];
    }
    assert rows[..|rows|] == rows;
  }

  /** Conversion of a decimal to an integer drops the fraction, toward zero. */
  function Truncate(x: real): int {
    if x >= 0.0 then x.Floor else -((-x).Floor)
  }

  function Number(confirmed: map<string, FieldValue>, key: string): Option<real> {
    if key in confirmed then confirmed[key].number else None
  }

  function InputsOf(confirmed: map<string, FieldValue>): Inputs {
    Inputs(
      Number(confirmed, "loan_amount"),
      (match Number(confirmed, "loan_term") case Some(x) => Some(Truncate(x)) case None => None),
      Number(confirmed, "interest_rate"),
      if "repayment_method" in confirmed then confirmed["repayment_method"].text else None,
      if "loan_fees" in confirmed then confirmed["loan_fees"].feeAmount else None,
      Number(confirmed, "overdue_interest_rate"))
  }

  // ---------------------------------------------------------------------------
  // One rule
  // ---------------------------------------------------------------------------

  function LimitOnRate(ratePct: Option<real>, thresholdPct: real): Evaluation {
    if ratePct.None? then Insufficient([InterestRate])
    else
      Compared(if RateFrac(ratePct.value) > RateFrac(thresholdPct) then Triggered else NotTriggered,
               ratePct.value, thresholdPct, None)
  }

  function LimitOnLprMultiple(ratePct: Option<real>, lprPct: Option<real>, multiplier: real): Evaluation {
    var missing := Absent(InterestRate, ratePct) + Absent(Lpr, lprPct);
    if missing != [] then Insufficient(missing)
    else
      var limit := RateFrac(lprPct.value) * multiplier;
      Compared(if RateFrac(ratePct.value) > limit then Triggered else NotTriggered,
               ratePct.value, limit * 100.0, lprPct)
  }

  ghost function RuleEvaluation(formula: Calc, inputs: Inputs, lprPct: Option<real>, growth: Growth): Evaluation {
    match formula
    case AnnualRateLimit(threshold) => LimitOnRate(inputs.annualRatePct, threshold)
    case LprMultipleLimit(multiplier) => LimitOnLprMultiple(inputs.annualRatePct, lprPct, multiplier)
    case EffectiveCostLimit(threshold, overdueDays) => CostLimitWith(inputs, overdueDays, threshold, growth)
  }

  method EvaluateRule(formula: Calc, inputs: Inputs, lprPct: Option<real>, growth: Growth) returns (e: Evaluation)
    ensures e == RuleEvaluation(formula, inputs, lprPct, growth)
  {
    match formula
    case AnnualRateLimit(threshold) => e := LimitOnRate(inputs.annualRatePct, threshold);
    case LprMultipleLimit(multiplier) => e := LimitOnLprMultiple(inputs.annualRatePct, lprPct, multiplier);
    case EffectiveCostLimit(threshold, overdueDays) => e := EvaluateEffectiveCost(inputs, overdueDays, threshold,
        growth);
  }

  // ---------------------------------------------------------------------------
  // The aggregate
  // ---------------------------------------------------------------------------

  /** What the evaluation of one application reads besides the tables, and the arithmetic it uses. */
  datatype Query = Query(
    qualification: string, context: Option<string>, product: string,
    evaluationDate: Date, signingDate: Option<Date>, confirmed: map<string, FieldValue>, growth: Growth)

  datatype Result = Result(
    selection: Selection,
    lpr: Option<LprRow>, lprAsOf: Date, lprProvisional: bool,
    primary: Option<Evaluation>,
    references: seq<(RuleId, Evaluation)>)

  function LprAsOf(q: Query): Date {
    if q.signingDate.Some? then q.signingDate.value else q.evaluationDate
  }

  function ValueOf(lpr: Option<LprRow>): Option<real> {
    if lpr.Some? then Some(lpr.value.entry.valuePct) else None
  }

  predicate AppliesAsReference(rule: Rule, q: Query) {
    && rule.kind.Reference? && q.context.Some? && q.context.value != ""
    && rule.scope.context == q.context.value && rule.scope.product == q.product
    && RuleInEffect(rule, q.evaluationDate)
  }

  /** Crossing a reference line is a risk warning, never a trigger. */
  function Downgrade(e: Evaluation): (r: Evaluation)
    ensures r.DivisionByZero? || !VerdictOf(r).Triggered?
  {
    match e
    case Compared(Triggered, rate, limit, lpr) => Compared(RiskWarning, rate, limit, lpr)
    case Costed(Triggered, figures) => Costed(RiskWarning, figures)
    case _ => e
  }

  ghost function ReferenceEvaluations(rules: seq<Rule>, q: Query, lprPct: Option<real>): seq<(RuleId, Evaluation)> {
    if rules == [] then []
    else
      var last := |rules| - 1;
      ReferenceEvaluations(rules[..last], q, lprPct)
      + if AppliesAsReference(rules[last], q)
        then [(last, Downgrade(RuleEvaluation(rules[last].formula, InputsOf(q.confirmed), lprPct, q.growth)))] else []
  }

  /** The evaluation against a given LPR row. */
  ghost function EvaluationAgainst(rules: seq<Rule>, q: Query, lpr: Option<LprRow>): Result {
    var selection := SelectPrimaryRule(rules, q.qualification, q.context, q.product, q.evaluationDate);
    Result(
      selection, lpr, LprAsOf(q), q.signingDate.None?,
      if selection.rule.Some?
        then Some(RuleEvaluation(rules[selection.rule.value].formula, InputsOf(q.confirmed), ValueOf(lpr),
            q.growth)) else None,
      ReferenceEvaluations(rules, q, ValueOf(lpr)))
  }

  ghost function RedlineEvaluation(rules: seq<Rule>, lprRows: seq<LprRow>, q: Query): Result {
    EvaluationAgainst(rules, q, SelectLpr(lprRows, LprAsOf(q)))
  }

  method EvaluateRedline(rules: seq<Rule>, lprRows: seq<LprRow>, q: Query) returns (result: Result)
    ensures result == RedlineEvaluation(rules, lprRows, q)
  {
    var selection := SelectPrimaryRule(rules, q.qualification, q.context, q.product, q.evaluationDate);
    var lpr := SelectLpr(lprRows, LprAsOf(q));
    var primary := None;
    if selection.rule.Some? {
      var e := EvaluateRule(rules[selection.rule.value].formula, InputsOf(q.confirmed), ValueOf(lpr), q.growth);
      primary := Some(e);
    }
    var references := [];
    for i := 0 to |rules|
      invariant references == ReferenceEvaluations(rules[..i], q, ValueOf(lpr))
    {
      assert rules[..i + 1][..i] == rules[..i];
      if AppliesAsReference(rules[i], q) {
        var e := EvaluateRule(rules[i].formula, InputsOf(q.confirmed), ValueOf(lpr), q.growth);
        references := references + [(i, Downgrade(e))];
      }
    }
    assert rules[..|rules|] == rules;
    return Result(selection, lpr, LprAsOf(q), q.signingDate.None?, primary, references);
  }

  predicate Fails(r: Result) {
    || (r.primary.Some? && r.primary.value.DivisionByZero?)
    || exists i | 0 <= i < |r.references| :: r.references[i].1.DivisionByZero?
  }

  /** The verdict of the report: that of the primary rule, or indeterminate without one. */
  function OverallState(r: Result): Verdict
    requires r.primary.Some? ==> !r.primary.value.DivisionByZero?
  {
    if r.primary.Some? then VerdictOf(r.primary.value) else Indeterminate
  }

  /** References never trigger, and none but applicable approved ones is evaluated, each at most once. */
  lemma {:induction false} ReferencesOnlyWarn(
    rules: seq<Rule>, q: Query, lprPct: Option<real>, refs: seq<(RuleId, Evaluation)>)
    requires refs == ReferenceEvaluations(rules, q, lprPct)
    ensures forall i | 0 <= i < |refs| ::
              && refs[i].0 < |rules| && AppliesAsReference(rules[refs[i].0], q)
              && refs[i].1 == Downgrade(RuleEvaluation(rules[refs[i].0].formula, InputsOf(q.confirmed), lprPct,
                  q.growth))
              && (refs[i].1.DivisionByZero? || !VerdictOf(refs[i].1).Triggered?)
    ensures forall i, j | 0 <= i < j < |refs| :: refs[i].0 < refs[j].0
    decreases |rules|
  {
    if rules != [] {
      var front, before := rules[..|rules| - 1], ReferenceEvaluations(rules[..|rules| - 1], q, lprPct);
      ReferencesOnlyWarn(front, q, lprPct, before);
      assert forall i | 0 <= i < |before| :: front[before[i].0] == rules[before[i].0];
      assert refs == before || exists e :: refs == before + [(|front|, Downgrade(e))];
    }
  }

  lemma {:induction false} EachReferenceIsEvaluated(
    rules: seq<Rule>, q: Query, lprPct: Option<real>, refs: seq<(RuleId, Evaluation)>, id: RuleId)
    requires refs == ReferenceEvaluations(rules, q, lprPct)
    requires id < |rules| && AppliesAsReference(rules[id], q)
    ensures (id, Downgrade(RuleEvaluation(rules[id].formula, InputsOf(q.confirmed), lprPct, q.growth))) in refs
    decreases |rules|
  {
    var last := |rules| - 1;
    if id < last {
      assert rules[..last][id] == rules[id];
      EachReferenceIsEvaluated(rules[..last], q, lprPct, ReferenceEvaluations(rules[..last], q, lprPct), id);
    }
  }

  /** An unambiguous table never leaves the report indeterminate for having several rules. */
  lemma IndeterminateExactlyWithoutRule(rules: seq<Rule>, lprRows: seq<LprRow>, q: Query)
    requires Unambiguous(rules)
    requires !Fails(RedlineEvaluation(rules, lprRows, q))
    ensures OverallState(RedlineEvaluation(rules, lprRows, q)).Indeterminate? <==>
              (q.context.None? || q.context.value == ""
               || forall i | 0 <= i < |rules| ::
                    !Matches(rules[i], Scope(q.qualification, q.context.value, q.product), q.evaluationDate))
  {
    SelectionIsExact(rules, q.qualification, q.context, q.product, q.evaluationDate);
  }

  predicate RefersTo(r: Result, rules: seq<Rule>) {
    && (r.selection.rule.Some? ==> r.selection.rule.value < |rules|)
    && forall i | 0 <= i < |r.references| :: r.references[i].0 < |rules|
  }

  lemma ResultRefersToRules(rules: seq<Rule>, q: Query, lpr: Option<LprRow>)
    ensures RefersTo(EvaluationAgainst(rules, q, lpr), rules)
  {
    ReferencesOnlyWarn(rules, q, ValueOf(lpr), EvaluationAgainst(rules, q, lpr).references);
  }
}
