# Loan-review backend: a Dafny model

A model of the backend of a loan-review application and proofs about it. It covers what a maintainer would
want to stay true when the code changes:

- **The redline cost engine** (`CashFlow`, `Schedule`, `EffectiveCost`): present value, the bisection that
  computes an internal rate of return, the two amortisation schedules, and the verdict by threshold. The
  schedules are measured against an independent definition, the running balance of a loan. The bisection is
  followed halving by halving, so order and error bounds are about the number the code returns.
- **Rules, references and LPR** (`RuleCatalog`, `Redline`): the administration of rule packages, the overlap
  test behind approval, the selection of the primary rule, confirmed inputs and the aggregate evaluation.
- **Checklists** (`TemplateCatalog`, `Completeness`): templates, and the state that the evidence gives each item.
- **What a report says** (`Verdicts`, `Checklists`): the verdict and the item states from the rows themselves.
- **Frozen reports** (`Reports`): a formal report is a cache of an evaluation. Its staleness is partly a stored
  flag and partly a live comparison; the theorem is that a report not reported stale agrees with evaluating now.
- **Requests of a loan officer** (`ReviewDesk`, `Requests`, `Changes`): the guard on the state of the application,
  idempotency keys, the rows each request changes and the reports it makes stale.
- **The job queue** (`JobQueue`, `QueueRuns`, `JobStore`, `Worker`): claim tokens, recovery, bounded retries, step
  statuses and the application state they drive, as a step relation with any interleaving of workers. `Leases` has
  how long a claim lasts, `JobOutcomes` what the end of a job leaves behind, `Versions` compare-and-set.
- **Uploads, objects and deletion** (`Intake`, `IntakeStore`): idempotent uploads within limits, and the purge of
  objects behind a tombstone, with deletions that fail and crashes at any point of either.
- **The whole deployment** (`Lifecycle`, `Reviews`, `Isolation`): all of the above in one state, what every reachable
  state has, and how a review gets done.
- **The Markdown parser** (`Markdown`): blocks, their lines, and their heading paths, for any line classifier.

Where the code changes state, a class with the same fields has methods that do what the code does, and each
method's postcondition equates the new state with a specification function of the old one (`Submit`, `Serve`, `Apply`,
`Settle`, `ServeRule`, `ServeTemplate`). The lemmas are about those functions and about every sequence of them.
What such a function gives is stated apart from it, in terms of rows, lines and amounts alone, by the lemmas whose
names end in `Says` or `Exactly`, and for the parser by `Markdown.ParseIsTheReading`.
`dafny verify dfyconfig.toml` checks everything.

Where documentation and code differ, the model follows the code:

- `irr_monthly` is documented to return None when there is no sign change in [0, 0.5]. It never does: it returns 0
  or a number just below 0.5 (`CashFlow.IrrRange`), so costs saturate below 600% (`EffectiveCost.CostSaturates`).
- The annuity formula can divide by zero, which the program does not handle: at 28 digits, for positive rates so
  small that the computed growth factor is 1. Exact arithmetic does not show this, so the evaluation takes the
  arithmetic of that factor as a parameter (`EffectiveCost.EvaluationFailsExactly`,
  `EffectiveCost.TinyRatesFailExactly`). The reports are proved coherent for every such arithmetic; the
  statements on costs and verdicts are about the exact one.
- Reports are described as becoming stale when what they froze changes. When a report not reported stale still
  differs from a new one is stated exactly: candidates found later (`Reports.CheckReportAgrees`), an LPR read at
  a provisional date (`Reports.ReportAgreesIff`), references (`Reports.ReferencesAgreeIff`), a retired template
  (`Reports.RetirementGoesUnnoticed`).
- Completeness reports sort lists whose entries have no order, and fail once there are two mappings, or two
  waivers, that differ (`Reports.ChecklistReportExactly`). Repeating a request to map whose mapping was deleted
  fails as well (`ReviewDesk.RepeatedMappingFailsExactly`).
- Uploads clean up after themselves, but the store may fail to delete and the process may end. The objects this
  leaves behind, which no row lists, are exact (`Intake.RunsStaySound`); without such an event there are none
  (`Intake.NothingIsLost`).
- An exhausted recovery fails a job without moving its application on. Which applications that strands is exact
  (`QueueRuns.AdvanceKeepsStranded`), and so is what moves them on (`QueueRuns.OnlyRescuesMoveOn`).

Each request is one atomic step, and identifiers and claim tokens drawn by the program are new ones. The rows of
an initial database may be anything that satisfies the stated invariants, the empty database included.

## Model

| member | source | states |
|---|---|---|
| `CashFlow.ComputeNpv` | backend/app/redline.py:327-331 | The loop that divides each flow by its own power of the growth factor returns the value obtained by discounting month by month, for every rate but -1. |
| `CashFlow.NpvAntitone` | backend/app/redline.py:327-331 | For flows that are never negative, the value is never negative, does not rise with the rate above -1, and is positive iff some flow is. |
| `CashFlow.NpvStrictlyDecreasing` | backend/app/redline.py:327-331 | For one outflow followed by inflows of which one is positive, the value is strictly decreasing in the rate. |
| `CashFlow.NpvMonotone` | backend/app/redline.py:327-331 | Raising any flow never lowers the value at a rate above -1. |
| `CashFlow.IrrMonthly` | backend/app/redline.py:334-350 | The bisection returns the middle of the bracket after exactly 39 halvings, so the cap of 200 iterations is never what ends it; it returns 0 when the value at rate 0 is not positive. |
| `CashFlow.WidthAtStop` | backend/app/redline.py:341-349 | 39 is exactly the number of halvings: after 39 the bracket is narrower than 1e-12, after 38 it is not. |
| `CashFlow.BracketInvariant` | backend/app/redline.py:341-347 | After every halving the value at the lower end is positive, and the upper end is still 0.5 or has no positive value. |
| `CashFlow.SignAroundRoot` | backend/app/redline.py:344-347 | For a loan-shaped flow the value has the sign of the distance to a root, so there is at most one non-negative root and it is positive. |
| `CashFlow.IrrNearRoot` | backend/app/redline.py:334-350 | The computed rate is strictly within 5e-13 of the exact root when that root is at most 0.5; above that it is one fixed number just below 0.5. |
| `CashFlow.IrrAgainstRate` | backend/app/redline.py:334-350 | Without assuming that a root exists: for a loan-shaped flow and any rate, the computed rate is above it, or below it, as the sign of the value at that rate says, up to 5e-13 and up to the ceiling of 0.5. |
| `CashFlow.IrrRange` | backend/app/redline.py:334-350 | Every input gets a number in [0, 0.5), and 0 exactly when the value at rate 0 is not positive. The docstring announces None for no sign change; the code never returns it. |
| `CashFlow.IrrKeepsOrder` | backend/app/redline.py:334-350 | The computed answer, not just the exact one, is order-preserving: a flow worth at least as much at every rate in [0, 0.5] never gets a smaller computed rate. No shape of the flows is assumed. |
| `CashFlow.IrrRaised` | backend/app/redline.py:566-567 | Raising flows never lowers the computed rate. |
| `CashFlow.IrrExtended` | backend/app/redline.py:591-593 | Appending a flow that is not negative never lowers the computed rate. |
| `Schedule.ValueIsDiscountedBalance` | backend/app/redline.py:327-331 | The value of a loan at its own rate is minus its final running balance, discounted over the term: the link between the engine and the bookkeeping definition of a loan. |
| `Schedule.PaidIsOwedAndInterest` | backend/app/redline.py:353-370 | What is paid and what is left to pay are together the loan and the interest charged on its running balance, for any payments. |
| `Schedule.InstallmentsAmortise` | backend/app/redline.py:353-357 | Equal instalments leave a running balance of exactly 0, at every rate for which the formula does not divide by zero. |
| `Schedule.FormulaUndefinedExactly` | backend/app/redline.py:353-357 | A fact about the formula in exact arithmetic: it divides by zero for exactly one rate, -200% a month, and then iff the number of periods is even. What happens with rounding is stated below. |
| `Schedule.DecimalGrowthIsOne` | backend/app/redline.py:356-357 | With the sum and the power rounded to 28 digits, the growth factor of a rate that is not negative is 1 iff the rate is at most 5e-28 a month, over any number of periods. |
| `Schedule.PaymentTimesAnnuity` | backend/app/redline.py:353-357 | The instalment times the present value of one unit a month is the principal. |
| `Schedule.EqualPrincipalSchedule` | backend/app/redline.py:360-370 | The loop over the remaining principal produces the payments of the closed form, each one share plus interest on the principal not yet repaid. |
| `Schedule.EqualPrincipalAmortises` | backend/app/redline.py:360-370 | The running balance of the equal-principal schedule ends at 0, and its payments total P + P*r*(n+1)/2. |
| `Schedule.BuildSchedule` | backend/app/redline.py:373-384 | The schedule of the method the text names, equal instalments first if it names both, and none if it names neither; for whatever growth factor has been computed. |
| `Schedule.MethodIsNamed` | backend/app/redline.py:373-384 | The method is equal instalments iff the text has that name in it somewhere, and equal principal iff it has only the other one. |
| `Schedule.SchedulesAmortise` | backend/app/redline.py:373-384 | Whichever method is chosen, nothing is owed after the last payment. |
| `Schedule.PaymentsSay` | backend/app/redline.py:353-384 | Equal instalments are all the same; equal principal starts with a share and a full month of interest and falls by the interest on a share each month. |
| `Schedule.InstallmentMonotoneInRate` | backend/app/redline.py:353-357 | For a non-negative principal, a higher non-negative rate never gives a lower instalment, for any number of periods; and the formula is defined. |
| `Schedule.EqualPrincipalMonotoneInRate` | backend/app/redline.py:360-370 | A higher rate never lowers any payment of the equal-principal schedule. |
| `Schedule.PaymentsMonotoneInRate` | backend/app/redline.py:373-384 | Both schedules: defined, never negative, and pointwise monotone in the rate. |
| `EffectiveCost.EvaluateEffectiveCost` | backend/app/redline.py:500-644 | The evaluator, for any arithmetic that computes the growth factor: missing inputs in sorted order, then the rejections in the order the code checks them, the division by zero of the annuity formula, and otherwise the two costs and the verdict by threshold. |
| `EffectiveCost.OverdueCostsNoLess` | backend/app/redline.py:586-593 | With a non-negative overdue rate, the computed overdue cost is never below the computed normal cost. |
| `EffectiveCost.OverdueInterestIsLinear` | backend/app/redline.py:586-590 | The overdue interest is additive in the days, and 360 days cost exactly the overdue rate on the loan. |
| `EffectiveCost.OverdueScenario` | backend/app/redline.py:586-593 | The overdue flows are the normal ones and one more, a month after the last payment: overdue rate times loan times days over a year of 360. Their value exceeds the normal one by exactly that, discounted over the term and one month. |
| `EffectiveCost.FiguresSay` | backend/app/redline.py:535-570 | The figures behind a verdict: the money handed out and the fees are the loan, the total paid is the loan and the interest charged on its balance, and the two costs are 1200 times the computed monthly rates of their flows. |
| `EffectiveCost.ComputedVerdictSays` | backend/app/redline.py:583-627 | The verdict against the computed costs, for any growth factor: triggered iff the normal cost exceeds the threshold, a risk warning iff only the overdue cost does, not triggered otherwise; equality does not count. |
| `EffectiveCost.MissingExactly` | backend/app/redline.py:509-528 | An input that lacks something gets no verdict but the list of exactly what is missing, in the order of the field keys; the overdue rate is missed only with overdue days. |
| `EffectiveCost.RejectedExactly` | backend/app/redline.py:529-551 | A complete input is rejected for the first of term, amount, fees and method that is out of range, and iff one is; otherwise it gets a verdict or divides by zero. |
| `EffectiveCost.NonNegativeRateIsCostable` | backend/app/redline.py:353-357 | In exact arithmetic the annuity formula never divides by zero for a non-negative nominal rate, so a complete input that is not rejected gets a verdict. |
| `EffectiveCost.EvaluationFailsExactly` | backend/app/redline.py:550-553 | For any arithmetic: the evaluation divides by zero iff a complete input that is not rejected asks for equal instalments at a rate other than 0 whose computed growth factor is 1. In exact arithmetic no rate that is not negative is one. |
| `EffectiveCost.TinyRatesFailExactly` | backend/app/redline.py:550-553 | With 28 digits there are such rates: the evaluation of a complete input that is not rejected divides by zero iff it asks for equal instalments at a monthly rate above 0 and up to 5e-28. |
| `EffectiveCost.ExactGrowthGivesExactCost` | backend/app/redline.py:535-627 | With the exact growth factor the evaluation is the one that the statements on costs and verdicts below are about. |
| `EffectiveCost.VerdictMonotone` | backend/app/redline.py:535-627 | For non-negative rates: raising the nominal rate, the fees, the overdue rate or days, or lowering the threshold, never lowers a computed cost and never weakens the verdict in the order not triggered, risk warning, triggered; the raised loan is costed iff its fees stay below the loan amount. |
| `EffectiveCost.NoFeesGiveNominalRate` | backend/app/redline.py:535-570 | Without fees, and for nominal rates from 0 to 600%, the computed cost is the nominal rate to within 6e-10 of a percent, for both methods and any term. |
| `EffectiveCost.FeesRaiseExactRate` | backend/app/redline.py:535-567 | With any positive fee every exact rate of the loan is strictly above the nominal monthly rate. |
| `EffectiveCost.ValueAtNominalRate` | backend/app/redline.py:535-567 | Discounted at its nominal rate a loan is worth exactly the fees deducted from it, so with fees it costs more than that rate. |
| `EffectiveCost.CostCoversNominalRate` | backend/app/redline.py:535-570 | The computed cost is never below the nominal rate, to within 6e-10 of a percent, for any fees and nominal rates from 0 to 600%. |
| `EffectiveCost.TriggeredFollowsExactRate` | backend/app/redline.py:583-620 | In terms of an exact rate of the normal flows, any that is not negative: the verdict is triggered if it is above the threshold and not triggered if it is below, except within 6e-10 of a percent and above 600%. |
| `EffectiveCost.VerdictFollowsExactCosts` | backend/app/redline.py:583-627 | All three verdicts against the exact costs of the normal and of the overdue flows, whether or not they have a root: triggered if the normal cost exceeds the threshold, not triggered if neither does, a risk warning if only the overdue cost does; exact but for 6e-10 of a percent around the threshold. |
| `EffectiveCost.CostsMoreThanBelowRoot` | backend/app/redline.py:327-350 | Costing more than a percentage, as used there, means having an exact rate above it whenever there is one. |
| `EffectiveCost.CostSaturates` | backend/app/redline.py:570-584 | Every computed cost is below 600%, so a threshold of 600% or more is never exceeded, whatever the loan costs. |
| `RuleCatalog.OverlapIsExact` | backend/app/admin_rules.py:224-227 | For intervals that hold a day, the overlap test is true iff some date lies in both. |
| `RuleCatalog.OverlapNeedsValidIntervals` | backend/app/admin_rules.py:210-227 | For any two intervals, inverted ones included: the test disagrees with the existence of a common day iff it says yes and one of the intervals is inverted. So it is exact behind the validation and only there. |
| `RuleCatalog.RuleAdmin.Approve` | backend/app/admin_rules.py:302-349 | A hard draft is approved unless an approved hard rule of its scope overlaps it; the loop over the approved rules decides exactly that. The other requests of the class are tied to the same functions: creation, editing of drafts, copies with the next version, retirement of approved rules. |
| `RuleCatalog.ServeKeepsUnambiguous` | backend/app/admin_rules.py:302-349 | No request makes two approved hard rules of one scope overlap. |
| `RuleCatalog.ServeFreezes` | backend/app/admin_rules.py:273-299 | Once a rule has left the draft state no request changes its content, and only approved rules can become retired. |
| `RuleCatalog.RunsStayUnambiguous` | backend/app/admin_rules.py:302-349 | Both of these over every sequence of requests, from the empty table or any unambiguous seed. |
| `RuleCatalog.ApproveSays` | backend/app/admin_rules.py:302-349 | A rule is approved iff it is a draft and, if it is hard, no approved hard rule of its scope shares a day with it; only its status changes. |
| `RuleCatalog.EditsSay` | backend/app/admin_rules.py:238-299 | Creation, editing of drafts and retirement: when each is accepted, which refusal it gets otherwise, and which columns it changes. |
| `RuleCatalog.CopySays` | backend/app/admin_rules.py:356-398 | A copy is a draft with the content of the rule and the version after the highest of its code. |
| `RuleCatalog.VersionsStayDistinct` | backend/app/admin_rules.py:356-398 | In every sequence of requests, code and version together name one rule. |
| `RuleCatalog.MatchingRules` | backend/app/redline.py:232-240 | The matches are exactly the approved hard rules of the scope in effect on the date, in table order. |
| `RuleCatalog.SelectionReasons` | backend/app/redline.py:217-245 | On any table, the candidates are exactly the matches in order, and rule and reason follow from whether there are none, one or several. |
| `RuleCatalog.AtMostOneMatch` | backend/app/redline.py:217-245 | On such a table at most one rule matches a scope on any date. |
| `RuleCatalog.SelectionIsExact` | backend/app/redline.py:217-245 | The selection never reports several matches, and names a rule iff that rule is the one that matches; it names none iff there is no confirmed context or no match. |
| `RuleCatalog.ClashMeansAmbiguousDate` | backend/app/redline.py:217-245 | Conversely, two overlapping approved hard rules of one scope make the selection ambiguous on some date. |
| `Redline.SelectLprIsLatest` | backend/app/redline.py:175-182 | The selected LPR is a one-year row effective by the date with the greatest effective date, the first listed among equals; none is selected iff no row is eligible. |
| `Redline.ConfirmedResolutions` | backend/app/redline.py:869-890 | The dictionary filled row by row holds, for each field key, what Confirmed says. |
| `Redline.ConfirmedIsNewest` | backend/app/redline.py:869-890 | That is, per field key, exactly the value of the newest resolution about the primary borrower; resolutions about others never appear. |
| `Redline.ConfirmedIsUnique` | backend/app/redline.py:869-890 | That description leaves only one possible dictionary. |
| `Redline.EvaluateRedline` | backend/app/redline.py:724-785 | The aggregate evaluation: selection, LPR, primary evaluation and one evaluation per applicable reference. |
| `Redline.ReferencesOnlyWarn` | backend/app/redline.py:756-769 | A reference never triggers, only applicable approved references are evaluated, each at most once and by its own formula. |
| `Redline.EachReferenceIsEvaluated` | backend/app/redline.py:756-769 | Each applicable approved reference is evaluated. |
| `Redline.IndeterminateExactlyWithoutRule` | backend/app/redline.py:771-774 | On an unambiguous table the report is indeterminate iff there is no confirmed context or no matching rule. |
| `Verdicts.InputsSay` | backend/app/redline.py:654-697 | Which confirmed field feeds which input of the engine, from the resolutions themselves: the newest one about the primary borrower counts, and the term drops its fraction toward zero. |
| `Verdicts.LprSays` | backend/app/redline.py:175-182 | The selected LPR, from the imported batches: the latest one-year row of a published batch, not a demo one in production, effective by the day; of several the one imported first; none iff there is no such row. |
| `Verdicts.CatalogOffers` | backend/app/admin_rules.py:493-550 | Importing offers no row; publishing a batch offers exactly its rows; no other request of an administrator changes what is on offer. |
| `Verdicts.SelectionSays` | backend/app/redline.py:217-245 | The selected rule is the one approved hard rule in force today for the lender, the confirmed context and the product; the reason tells apart no context, no match and a match. |
| `Verdicts.VerdictSays` | backend/app/redline.py:402-497 | The verdict of a whole report with a rule on the rate, from its rows: insufficient without a confirmed rate or an LPR it needs, triggered iff the rate exceeds the threshold, or the LPR of the day times the multiplier, and not triggered iff it does not. |
| `Verdicts.CostVerdictSays` | backend/app/redline.py:583-627 | The verdict of a whole report with a rule on the effective cost, against the exact costs of the confirmed loan: triggered, risk warning or not triggered, but for 6e-10 of a percent around the threshold. |
| `Verdicts.ReferencesSay` | backend/app/redline.py:248-270 | The references of a report are exactly the approved ones in force today for context and product, whichever the lender, in order and each once. |
| `Verdicts.WarningSays` | backend/app/redline.py:756-769 | A reference on the rate is a risk warning iff the confirmed rate exceeds its limit, and no reference triggers. |
| `Verdicts.CostWarningSays` | backend/app/redline.py:756-769 | A reference on the effective cost is a risk warning iff an exact cost of the confirmed loan, overdue or not, is over its threshold, but for 6e-10 of a percent around it; its figures stay. |
| `Verdicts.ReportSays` | backend/app/redline_api.py:498-574 | When a redline report is made: an error iff an evaluation divides by zero, refused iff a demo rule counts in production, and otherwise the new run is the newest, the only current one, and freezes the rule that decides, the references, the LPR of the day of signing or else of today, and the confirmed values. |
| `TemplateCatalog.ValidateTemplateItems` | backend/app/completeness.py:399-416 | Items are accepted iff codes are present and distinct and each condition names a known key. |
| `TemplateCatalog.TemplateAdmin.Update` | backend/app/admin_templates.py:183-219 | Only drafts change; their items are replaced one by one. The other requests of the class are tied to the same function: creation, publication when no published template has the product and borrower type, copies, retirement. |
| `TemplateCatalog.ServeTemplateKeeps` | backend/app/admin_templates.py:222-264 | No request leaves two published templates with one key, or changes a template that has been published. |
| `TemplateCatalog.PublishSays` | backend/app/admin_templates.py:222-264 | A template is published iff it is a draft and no other one is published for its product and borrower type; only its status changes. |
| `TemplateCatalog.TemplateEditsSay` | backend/app/admin_templates.py:131-219 | Creation, editing of drafts and retirement: when each is accepted, which refusal it gets otherwise, and which columns it changes. |
| `TemplateCatalog.CopyTemplateSays` | backend/app/admin_templates.py:271-316 | A copy is a draft with the content of the template and the version after the highest of its code. |
| `TemplateCatalog.TemplateVersionsStayDistinct` | backend/app/admin_templates.py:271-316 | In every sequence of requests, code and version together name one template. |
| `TemplateCatalog.ApplicableTemplateIsUnique` | backend/app/completeness_api.py:173-182 | Over all sequences of requests: the template found for an application is the only published one of its key. |
| `Completeness.EachItemHasItsState` | backend/app/completeness.py:103-126 | With distinct codes, each item has its own state in the result, and the result has no other codes. |
| `Completeness.SatisfiedNeedsConfirmedEvidence` | backend/app/completeness.py:69-100 | An item is satisfied iff it is not waived, applies, and has mapped documents that all have the seal and signature it requires; candidates never satisfy anything. |
| `Completeness.CandidatesOnlyRaiseMissing` | backend/app/completeness.py:92-100 | When only candidates are added, a state stays what it is, except that missing becomes pending confirmation iff a candidate of its category exists. |
| `Completeness.LatestPresenceDocuments` | backend/app/completeness.py:481-501 | The documents whose newest review of the kind says present. |
| `Completeness.NewestReviewDecides` | backend/app/completeness.py:481-501 | A further review decides for its document and kind, whatever earlier ones said, and for no other. |
| `Checklists.ItemStateSays` | backend/app/completeness.py:60-100 | The state of an item from the rows of the application, both ways for each of the five states: waived iff a waiver has its code; otherwise not applicable iff no resolution has a field key of its condition; satisfied iff documents are mapped to its code and the newest seal and signature reviews that it requires say present for each; pending if one does not, or nothing is mapped but a candidate or confirmed category fits; missing otherwise. |
| `Checklists.ApplicableSays` | backend/app/completeness_api.py:173-182 | The template that applies is the one published for the product and the type of the borrower. |
| `Checklists.ChecklistSays` | backend/app/completeness_api.py:682-744 | A completeness report is the newest run and the only current one, is of that template, and freezes for each item the state its rows give it, and for no other code. |
| `Changes.RowsSay` | backend/app/candidates.py:268-372 | Profile, context, resolutions and reviews after an accepted request: each is changed by its own request only, and as it says. |
| `Changes.EvidenceRowsSay` | backend/app/completeness_api.py:408-642 | The same for confirmed categories, mappings and waivers. |
| `Changes.CandidatesSay` | backend/app/classification.py:140-164 | Candidates change only by a classification, which adds the categories it found for its document and removes none. |
| `Changes.ReportsSay` | backend/app/redline.py:1037-1046 | Which requests make which reports stale, and for which reason; no other request touches a report, and only making one adds one. |
| `Changes.OutcomeSays` | backend/app/completeness_api.py:494-642 | When each request on the rows is accepted, and which refusal it gets otherwise. |
| `Changes.SubmitSays` | backend/app/idempotency.py:26-42 | The whole answer to a request behind the guard and its key: refused on a completed or archived application; served under a new key, which is then recorded; and without effect under a known one, in conflict iff the hash differs. |
| `Changes.OperationsDiffer` | backend/app/idempotency.py:26-42 | Keys of different kinds of request never meet, nor those of categories and reviews about different documents and outputs. |
| `Changes.RedlineStaleExactly` | backend/app/redline_api.py:417-456 | A redline report is reported stale iff it is stored as stale, another rule decides today, or its rule or a reference is a multiple of the LPR and the LPR row for its day is another one; and for that reason. |
| `Changes.ChecksStaleExactly` | backend/app/completeness_api.py:227-239 | A completeness report is reported stale iff it is stored as stale or another template is published for the application. |
| `ReviewDesk.Desk.MarkRedlineRunsStale` | backend/app/redline.py:1037-1046 | Every current redline run becomes stale with the reason; stale runs keep theirs. |
| `ReviewDesk.Desk.MarkChecksStale` | backend/app/completeness.py:514-525 | The same for completeness runs. |
| `ReviewDesk.Desk.CreateResolution` | backend/app/candidates.py:268-372 | Behind the guard and the idempotency key: a resolution is appended and both kinds of run become stale; nothing else changes. |
| `ReviewDesk.Desk.ConfirmRuleContext` | backend/app/redline_api.py:356-405 | Behind the guard and the key: the context is replaced and redline runs become stale. |
| `ReviewDesk.Desk.UpdateApplication` | backend/app/applications.py:183-230 | Behind the guard and the version: the profile is replaced and redline runs become stale; completeness runs do not. |
| `ReviewDesk.Desk.ConfirmClassification` | backend/app/completeness_api.py:408-459 | Behind the guard, the check of the document and the key: its confirmed category is set and completeness runs become stale. |
| `ReviewDesk.Desk.CreateMapping` | backend/app/completeness_api.py:494-554 | Only items of the applicable template can be mapped; a mapping that is there already changes nothing and records no key; a repeated key whose mapping is gone ends in an error. |
| `ReviewDesk.Desk.DeleteMapping` | backend/app/completeness_api.py:557-586 | Behind the guard: a mapping is removed and completeness runs become stale. |
| `ReviewDesk.Desk.CreateWaiver` | backend/app/completeness_api.py:589-642 | Only items of the applicable template can be waived; a waiver that is there already changes nothing and records no key. |
| `ReviewDesk.Desk.CreateReview` | backend/app/document_outputs.py:231-297 | The document is looked up before the guard, the seal is checked after the key; then a review is appended and completeness runs become stale. |
| `ReviewDesk.Desk.RunClassification` | backend/app/classification.py:140-163 | The missing candidates are inserted one by one; no run becomes stale and no state of the application prevents it. |
| `ReviewDesk.Desk.CreateRedlineRun` | backend/app/redline_api.py:494-573 | Evaluation and the refusal of demo rules come before the key; a new current run freezes the rule, the references, the inputs and the result, after making all others stale. |
| `ReviewDesk.Desk.CreateCompletenessRun` | backend/app/completeness_api.py:678-743 | Template and demo checks come before the key, the sorting of the frozen lists after it; a new current run freezes the applicable template and the live states, after making all others stale. |
| `ReviewDesk.RecordedKeyHasNoEffect` | backend/app/idempotency.py:26-42 | A key that is recorded has no effect again, whatever comes with it; with another payload it is refused. |
| `ReviewDesk.SubmitRecords` | backend/app/idempotency.py:7-23 | Every request that changes something under a key records the key, and no record is ever changed. |
| `ReviewDesk.RepeatedMappingFailsExactly` | backend/app/completeness_api.py:519-541 | Repeating a request to map, with its key, ends in an error iff it would be served and its mapping has been deleted since. |
| `Reports.ServeKeepsRedline` | backend/app/redline_api.py:417-456 | Every request about an application keeps the redline cache coherent: a run stored as current froze the present inputs, and its rule, references and LPR row are unchanged. |
| `Reports.ServeKeepsChecks` | backend/app/completeness_api.py:227-239 | Every request keeps the completeness cache coherent, additions of candidates included. |
| `Reports.CatalogKeepsReports` | backend/app/redline_api.py:417-456 | So does every request of an administrator on rules, templates and LPR imports, for both kinds of run. |
| `Reports.ServeCatalogKeepsValid` | backend/app/admin_rules.py:302-349 | Those requests keep rules unambiguous and templates unique, freeze what was approved or published, and keep every published LPR row. |
| `Reports.RedlineReportAgrees` | backend/app/redline_api.py:417-456 | A redline report that is not reported stale is the newest, and agrees with evaluating again now against the LPR of its as-of date; with a signing date that is what a new report would contain. |
| `Reports.ReportAgreesIff` | backend/app/redline_api.py:417-456 | Exactly when a report that is not reported stale has the evaluation of a new one, figures included: there is a signing date, or no rule, or a rule that does not use the LPR, or both LPR values are there or missing and, if a rate is confirmed, equal. Exactly when it has the verdict of a new one: the same, but the two values need only put the rate on the same side of the limit. |
| `Reports.ProvisionalReportAgreesIff` | backend/app/redline_api.py:446-455 | So a provisional report of an LPR rule has the verdict of a new one for every confirmed rate iff the LPR of today has the frozen value. |
| `Reports.ReferenceChangesGoUnnoticed` | backend/app/redline_api.py:426-456 | Approving or retiring a reference rule never changes whether a report is reported stale. |
| `Reports.ReferencesAgreeIff` | backend/app/redline_api.py:426-456 | The references of a report that is not reported stale are the live ones iff the rules that apply as references today are those it lists and each listed LPR rule reads the LPR of today as it reads the frozen one; they have the live verdicts iff, besides the list, each puts the confirmed rate on the same side. With a signing date the second part always holds. |
| `Reports.ApprovedReferenceIsMissed` | backend/app/redline_api.py:426-456 | Approving any draft reference that applies today makes them differ, and the report is still not reported stale. |
| `Reports.CheckReportAgrees` | backend/app/completeness_api.py:227-239 | A completeness report that is not reported stale is the newest, of the template that applies if one does, and each item has its live state, except that a frozen missing is pending confirmation iff a candidate of its category exists by now. |
| `Reports.RetirementGoesUnnoticed` | backend/app/completeness_api.py:227-239 | Retiring the template of a current report leaves no template applicable and the report not reported stale; among published templates exactly a different one makes it stale. |
| `Reports.ChecklistReportExactly` | backend/app/completeness.py:572-580 | Exactly when a completeness report can be made: a template applies, it is not a demo one in production, and no two mappings differ in document or item code and no two waivers in item code. Where only the last fails, making it ends in an error, because the lists that are frozen with it cannot be sorted. |
| `JobQueue.ClaimKeeps` | backend/app/document_jobs.py:21-43 | A claim keeps the consistency of jobs, steps, documents and applications: a waiting job has no running step, a running job no waiting one, a finished job neither; the document shows the status of its job and is not ready while the job is active; an active job means its application is in processing. |
| `JobQueue.RenewKeeps` | backend/app/document_jobs.py:46-58 | So does renewing a lease. |
| `JobQueue.RecoverKeeps` | backend/app/document_jobs.py:61-83 | So does recovering an expired lease, exhausted or not. |
| `JobQueue.FinishKeeps` | backend/app/document_jobs.py:86-135 | So does an accepted, refused or transient finish. |
| `JobQueue.WriteStepKeeps` | backend/app/worker.py:101-128 | So does a final step status stored at any time by a worker that may have lost its lease. |
| `JobQueue.RetryKeeps` | backend/app/documents.py:499-587 | So does a retry of selected steps by a user. |
| `JobQueue.AddDocumentKeeps` | backend/app/documents.py:193-234 | So does a new document with its job. |
| `JobQueue.CompleteKeeps` | backend/app/lifecycle.py:167-203 | So does completion. |
| `JobQueue.ReopenKeeps` | backend/app/lifecycle.py:206-237 | So does reopening. |
| `JobQueue.ArchiveKeeps` | backend/app/lifecycle.py:240-271 | So does archiving. |
| `JobQueue.BumpVersionKeeps` | backend/app/lifecycle.py:274-316 | So does reassignment, as a compare-and-set on the version. |
| `JobQueue.DeleteKeeps` | backend/app/lifecycle.py:407-437 | So does the cascade of a hard deletion. |
| `JobQueue.ActiveMeansProcessing` | backend/app/document_jobs.py:120-133 | Only an application in processing has active jobs. |
| `QueueRuns.ApplyKeeps` | backend/app/document_jobs.py:21-135 | Every step of workers, users and administrators keeps that consistency. |
| `QueueRuns.AdvanceKeepsBalance` | backend/app/document_jobs.py:21-135 | With fresh tokens, every issued token is at any time either closed in exactly one way, by a finish, a recovery or a deletion, or the token of exactly one running job. |
| `QueueRuns.ClaimsAreConserved` | backend/app/document_jobs.py:21-135 | Claims = accepted finishes + recoveries + claims deleted with their application + jobs now running. |
| `QueueRuns.ClosedTokenIsFenced` | backend/app/document_jobs.py:86-98 | A finish or renewal that presents a closed token, be it only from a stale copy of the row, changes nothing at all. |
| `QueueRuns.FinishIsAcceptedExactly` | backend/app/document_jobs.py:95-98 | A finish presents the token passed in, or else that of the caller's copy of the row from before the refresh; it is accepted iff the job is running under that token, and changes nothing otherwise. |
| `QueueRuns.RunsStayConsistent` | backend/app/document_jobs.py:21-135 | Consistency and conservation in every interleaving; closed tokens stay closed. |
| `QueueRuns.FencedForEver` | backend/app/document_jobs.py:86-98 | A token once closed, passed in or in a stale copy, is refused after any further run. |
| `QueueRuns.ClaimStaysUntilClosed` | backend/app/document_jobs.py:21-135 | In every run, the token of a running claim stays with its job until the claim is closed. |
| `QueueRuns.WorkerIsHeardUntilClosed` | backend/app/document_jobs.py:86-135 | A worker that finishes the job it claimed, with its token or from its copy of the row, is heard iff its claim is still open, after any run. |
| `QueueRuns.StepUsesBudget` | backend/app/document_jobs.py:61-107 | The measure 2*(claims left) + 1 if running drops with every claim, accepted finish and recovery of the job, and no other step but a retry raises it. |
| `QueueRuns.RetriesAreBounded` | backend/app/document_jobs.py:61-107 | Between user retries a job changes hands at most 6 times and is claimed at most 3 times, in every run. |
| `QueueRuns.BackoffIsShort` | backend/app/document_jobs.py:106-107 | A job that goes back to waiting is available again after 1 second following its first attempt and 2 seconds following its second. |
| `Leases.LeaseIsExact` | backend/app/document_jobs.py:61-83 | A recovery leaves a claim alone iff the claim is not older than its cutoff; otherwise the job gives up its token and waits, or fails in its third attempt. |
| `Leases.RenewalStartsAnew` | backend/app/document_jobs.py:46-58 | After a renewal by the holder of the token the lease counts from the renewal, both ways; any other token changes nothing. |
| `Leases.ClaimStartsLease` | backend/app/document_jobs.py:21-43 | A claim is given iff the job waits and its time has come; it starts a lease for its token and worker, and one attempt more is counted. |
| `Leases.RenewedClaimIsKept` | backend/app/worker.py:60-75 | In every run, a claim lasts since its last renewal until it is closed; and if no recovery of its job comes with a cutoff after the last renewal, it is never recovered: only the worker itself or a deletion closes it. |
| `Leases.SilentWorkerLosesClaim` | backend/app/document_jobs.py:61-83 | Conversely, in every run, a recovery whose cutoff is after the last renewal closes a claim still open, and the job is released. |
| `JobOutcomes.FinishSays` | backend/app/document_jobs.py:86-119 | The whole effect of a finish on job, steps and document: heard iff the job runs under the token; waiting again iff the failure is transient and there were fewer than three attempts; the document is up for review iff the outcome is a success, whole or in part, or needs a person. |
| `JobOutcomes.FinishMovesOn` | backend/app/document_jobs.py:120-134 | A finish leaves its application in processing iff a job of it is still active, and else waiting for review; no other application changes. |
| `JobOutcomes.ReviewsAreShown` | backend/app/documents.py:193-234 | In every run: a document shows the status of its job, and is up for review iff the job ended in a success, whole or in part, needs a person, or was refused at the upload. |
| `JobOutcomes.RetrySays` | backend/app/documents.py:499-587 | A retry is accepted iff the application can be modified, the job has ended and every chosen step may run again: what failed, or after a success pages and partial extractions. Then exactly the chosen steps and those they feed wait. |
| `JobOutcomes.NewJobSays` | backend/app/documents.py:193-221 | The steps of a new job by format, one by one. |
| `Versions.CompleteSays` | backend/app/lifecycle.py:167-203 | When completion is accepted, on the queue alone, and the whole new row: state, time and next version. |
| `Versions.ReopenSays` | backend/app/lifecycle.py:206-237 | The same for reopening. |
| `Versions.ArchiveSays` | backend/app/lifecycle.py:240-271 | The same for archiving. |
| `Versions.CreateAndTouchSay` | backend/app/lifecycle.py:136-139 | The same for creation and for a bare step of the version. |
| `Versions.DeleteSays` | backend/app/lifecycle.py:407-437 | A deletion takes exactly the rows of its application, its documents and their jobs. |
| `Versions.OneWinnerPerVersion` | backend/app/lifecycle.py:136-139 | Of the requests that ask for one version of an application, at most one ever takes effect, in every run that does not delete it. |
| `QueueRuns.AdvanceKeepsStranded` | backend/app/document_jobs.py:68-83 | The applications in processing without an active job are, after every step, exactly those whose last active job was failed by an exhausted recovery and that have had no upload and no retry since. |
| `QueueRuns.ProcessingMeansActive` | backend/app/document_jobs.py:68-83 | So in every run an active job means processing, and without an exhausted recovery the converse holds too. |
| `QueueRuns.ExhaustedRecoveryStrands` | backend/app/document_jobs.py:68-83 | How an application gets stranded: the worker of its last active job goes silent in the third attempt. |
| `QueueRuns.StrandedIsStuck` | backend/app/lifecycle.py:167-271 | A stranded application can be neither completed, archived nor reopened. |
| `QueueRuns.OnlyRescuesMoveOn` | backend/app/documents.py:558-568 | A step ends the stranding of an application iff it is an upload to it, an accepted retry of one of its jobs, or its deletion. |
| `QueueRuns.StrandedUntilRescued` | backend/app/documents.py:558-568 | Over every run without one of these it stays in processing without an active job. |
| `JobStore.DocumentJob` | backend/app/documents.py:193-221 | The six steps of a new job, and which of them will run for the format. |
| `JobStore.Jobs.OldestClaimable` | backend/app/document_jobs.py:22-28 | The available waiting job created first, if any is available. |
| `JobStore.Jobs.ClaimNextJob` | backend/app/document_jobs.py:21-43 | The oldest available job is claimed, with its steps and document; nothing else changes, and nothing at all when none is available. |
| `JobStore.Jobs.RenewClaim` | backend/app/document_jobs.py:46-58 | The lease is renewed iff the token is that of the running job. |
| `JobStore.Jobs.RecoverStaleJobs` | backend/app/document_jobs.py:61-83 | Every job whose lease has expired is recovered exactly once, no other is touched, and the count is theirs. |
| `JobStore.Jobs.FinishJob` | backend/app/document_jobs.py:86-135 | The whole new state of an accepted finish, and no change for a refused one; the caller's copy is read before the row. |
| `JobStore.Jobs.RetryJob` | backend/app/documents.py:499-587 | Behind the guard and the idempotency key: the steps a user may select, those added to them, and the whole new state. |
| `JobStore.RecordedRetryHasNoEffect` | backend/app/documents.py:520-576 | A recorded key of a retry changes nothing, every retry that changes something records its key, and no record is ever changed. |
| `JobStore.SubmitRetrySays` | backend/app/documents.py:499-587 | The whole answer to a retry: unknown job, closed application, known key with or without the same hash, and otherwise the retry itself with its key recorded. |
| `JobStore.Jobs.CompleteApplication` | backend/app/lifecycle.py:167-203 | Completion is a compare-and-set: refused on another version, in another state, with active jobs or without current reports. Reopening and archiving, in the same class, are tied to their functions in the same way. |
| `Worker.ProcessOne` | backend/app/worker.py:45-172 | The first stage that fails decides the report; without one, extraction problems and then page failures do. Every step the pass gets to has its final status, which depends only on what was parsed or stored. |
| `Worker.ReportsAreHonest` | backend/app/worker.py:80-171 | A success leaves only steps that went well or had nothing to do, a partial success has a partial step, manual handling comes only from a rejected material, and only failures are transient. |
| `Worker.StagesDecide` | backend/app/worker.py:80-172 | The report of a pass, stage by stage: a fault fails the job, and is worth another attempt iff the object store could not be reached; a rejected material fails or needs a person; pages and extraction decide a pass that gets to its end. |
| `Worker.WritesSay` | backend/app/worker.py:80-139 | The status written for each step of a pass: pages alike for both steps that read them, nothing to do without pages, and every step written after a success. |
| `Worker.UseOutput` | backend/app/worker.py:106-139 | Classification and extraction on the newest output, if it can be used. |
| `Worker.FinishedStepsTellTheOutcome` | backend/app/worker.py:143-171 | When no other worker writes in between, a success shows only fine steps; a transient failure sends back to waiting exactly the steps not yet settled; otherwise unsettled steps take the outcome; steps that were not running are untouched. |
| `Worker.OnlyStoresChangeSteps` | backend/app/worker.py:101-128 | In any run with other workers, as long as a claim stays open the steps of its job change only by final statuses being stored. |
| `Worker.SuccessIsFineUnlessOverwritten` | backend/app/worker.py:101-143 | So after a success reported on an open claim each step that ran is fine, unless the last to write it was a worker other than the one that reports. |
| `Intake.ReadLimited` | backend/app/documents.py:91-104 | Size and digest are those of the whole material, also when the limit stops the store and the rest is drained; the limit is exceeded iff the material is longer. |
| `Intake.SettleEffect` | backend/app/documents.py:262-418 | An upload stores its document iff it is new, fits, and, when oversized, its object could be deleted; otherwise every document, job and application stays as it is. The object stays iff it is kept by the new document or none of the deletions asked for succeeds. |
| `Intake.SettleSays` | backend/app/documents.py:262-418 | The answer to every upload: unknown application, not modifiable, known key, known digest, no room, or stored, in this order; and an error instead iff it needs to delete its object and cannot. |
| `Intake.StoredSays` | backend/app/documents.py:193-234 | What a stored upload adds: its document, its job with the status the material deserves, the record of its key, and the state of its application. |
| `Intake.UploadGetsDone` | backend/app/documents.py:237-418 | An upload that is admitted and not too big, from its first step to its last: document, job and record are there, and its object stays in the store. |
| `Intake.NextKeepsUploads` | backend/app/documents.py:237-418 | Every step keeps the material count and total bytes of each application within the limits, oversized materials included, digests unique per application, and each key bound to a document of its application. |
| `Intake.NextKeepsQueue` | backend/app/documents.py:237-418 | Every step keeps the consistency of the queue. |
| `Intake.NextKeepsObjects` | backend/app/documents.py:262-418 | At every step, a crash inside the purge loop or inside an upload included, the stored objects that no document, no upload in flight and no tombstone knows of are those of before plus exactly the object of an upload that ends without a document while the store fails to delete it or its process ends. |
| `Intake.RunsStaySound` | backend/app/documents.py:237-418 | All of this in every run: the lost objects are exactly those some step of the run left behind. What an idempotency key is bound to never changes. |
| `Intake.NothingIsLost` | backend/app/lifecycle.py:407-453 | In a run without a failing deletion or an abandoned object of an upload, every stored object belongs to a document, to an upload in flight, or to what a tombstone lists; failing and interrupted purges are allowed. |
| `Intake.RecordedUploadReplays` | backend/app/documents.py:155-170 | A request with a recorded key and hash returns the recorded document and changes nothing but its own object; if that cannot be deleted it ends in an error and changes no row. |
| `Intake.AcceptedUploadReplays` | backend/app/documents.py:155-170 | The same for an accepted upload sent again after any further run, while the application can be modified. |
| `IntakeStore.FailuresAreFailing` | backend/app/lifecycle.py:441-447 | The keys kept by the purge loop are, as a set, exactly those whose deletion failed. |
| `IntakeStore.Store.FindDuplicate` | backend/app/documents.py:167-170 | The document of the application with that digest, if there is one. |
| `IntakeStore.Store.Usage` | backend/app/documents.py:173-190 | The number of materials of an application and their total bytes. |
| `IntakeStore.Store.SettleUpload` | backend/app/documents.py:262-418 | The upload once its stream is read: the deletion of an oversized object, checks again under the lock, replay, duplicate, capacity, admission, and the deletions on the way out, each of which may fail; the whole new state for each outcome. |
| `IntakeStore.Store.PurgeObjects` | backend/app/lifecycle.py:441-447 | Exactly the keys that can be deleted go from the store, and the others are returned in order. |
| `IntakeStore.Store.ConfirmHardDelete` | backend/app/lifecycle.py:361-453 | An unknown application, and a missing, wrong, expired or foreign confirmation are refused. Otherwise the rows go, every object but the failing ones is deleted, and the tombstone ends up listing exactly the failing keys. |
| `IntakeStore.DeletionGetsDone` | backend/app/lifecycle.py:407-453 | The single steps of a deletion that is not interrupted add up to what the endpoint does: the rows and every object but the failing ones go, and the tombstone lists exactly those. |
| `Lifecycle.CompletionBlockers` | backend/app/lifecycle.py:56-86 | Each blocker is reported iff its cause is there; there are none iff no job is active and both newest reports exist and are not stale. |
| `Lifecycle.HandlingNeverCompletes` | backend/app/lifecycle_guard.py:21-28 | No step of workers, uploads, retries, archiving or deletion makes an application review complete. |
| `Lifecycle.ServedKeepsReviews` | backend/app/lifecycle_guard.py:21-28 | Because requests are refused on them and classification stales nothing, reviewed applications keep both reports current. |
| `Lifecycle.StepKeepsGood` | backend/app/lifecycle.py:167-271 | One step of the whole deployment (administrator, day change, owner, worker, upload, deletion) keeps queue, uploads, objects, catalog and reports together consistent. |
| `Lifecycle.RunsStayGood` | backend/app/lifecycle.py:167-271 | Every run does. |
| `Lifecycle.ReviewedApplicationsAreSafe` | backend/app/lifecycle.py:167-271 | In every reachable state: a reviewed or archived application has no active job; a reviewed one keeps both newest reports stored current; archived_at is set exactly in the archived state, completed_at never in a mutable one; a draft has no documents; only the newest run of a kind can be current. |
| `Lifecycle.ReportsAreCoherent` | backend/app/redline_api.py:417-456 | In every reachable state, every report of either kind that is not reported stale agrees with live evaluation, up to the exceptions above. |
| `Lifecycle.EffectAtMostOnce` | backend/app/idempotency.py:7-42 | A request that took effect under its idempotency key never does again, in any state of any later run, the deletion of the application included. |
| `Lifecycle.RetryAtMostOnce` | backend/app/documents.py:520-576 | A retry that reset its job under its key never does again, in any state of any later run. |
| `Reviews.CompletionSays` | backend/app/lifecycle.py:56-203 | A review is completed iff the application waits for review in the version named, no job of it is left, the newest redline report is current with its rule and LPR unchanged, and the newest completeness report is current with no other template published; then only its row changes. |
| `Reviews.ChangeKeepsReviewOpen` | backend/app/lifecycle.py:56-86 | A served change of what a report reads, under a new key, keeps the review from being completed. |
| `Reviews.ReviewCanBeCompleted` | backend/app/lifecycle.py:167-203 | An application that waits for review without a job left can be completed by making both reports under new keys, in any reachable state where the reports can be made. |
| `Reviews.EditSays` | backend/app/applications.py:183-230 | An edit of the profile is compare-and-set: in the version named and on an open application it replaces the profile, moves the version on and makes redline reports stale; otherwise nothing changes. |
| `Reviews.StepsSay` | backend/app/lifecycle.py:167-271 | Which part of the deployment each kind of step changes, and to what. |
| `Isolation.ApplicationsStayApart` | backend/app/completeness_api.py:185-199 | In every reachable state, each document that a mapping, a confirmed category, a candidate or a review of an application names is a document of that application. |
| `Markdown.PathIsOpenHeadings` | backend/app/structured.py:283-286 | The heading stack is exactly the headings so far with no later one of equal or smaller level, in order, with strictly rising levels. |
| `Markdown.ReadCode` | backend/app/structured.py:301-309 | The content of a fenced block up to the next line with the same fence, or to the end. |
| `Markdown.ReadRows` | backend/app/structured.py:313-321 | The rows of a table up to the first line that is blank or has no pipe. |
| `Markdown.ReadParagraph` | backend/app/structured.py:352-364 | The lines of a paragraph up to the first that is blank or starts something else. |
| `Markdown.TableIsRectangular` | backend/app/structured.py:322-328 | The cells form a full rectangle, row by row, with short rows padded by empty texts. |
| `Markdown.ReadPiece` | backend/app/structured.py:288-365 | What one turn of the main loop reads, in the order in which the code tries the kinds. |
| `Markdown.Emit` | backend/app/structured.py:266-286 | A heading is pushed before its own block is appended; blocks are numbered in order. |
| `Markdown.ParseMarkdown` | backend/app/structured.py:256-366 | The loop terminates on every text and produces the blocks of Parse. |
| `Markdown.ParseIsTheReading` | backend/app/structured.py:288-366 | The blocks of the parser are the one reading of a text. A reading is any list of blocks where each has the kind of the first pattern that its first line fits, extends as far as that kind goes and says what its lines say, and where the lines left out are blank or fences with nothing between them; there is exactly one, for any classification of the lines. |
| `Markdown.HeadingsAreBlocks` | backend/app/structured.py:294-300 | Every heading line is a block of its own with its title, unless it lies in code or in a table or underlines the line before it. |
| `Markdown.JoinTakenApart` | backend/app/structured.py:309-365 | The text of several lines is theirs with newlines between them, wherever it is taken apart. |
| `Markdown.BlocksAreTraceable` | backend/app/structured.py:288-366 | For any classification of the lines: ranges lie in the text, rise and do not overlap, code fences included; each block has the kind of its first line; a line outside all of them is blank or starts with a fence; paragraph and code texts are exactly the newline-join of the lines they name, tables exactly their rows, headings their line or their underlined line; and each block is as long as it can be. |
| `Markdown.PathOfEachBlock` | backend/app/structured.py:263-286 | The path of each block is exactly the headings among the blocks so far, its own included, with no later one of equal or smaller level; levels rise along it. |

## Left out

- CashFlow.ComputeNpv: real numbers stand for decimals, so the rounding of each operation to 28 digits, overflow of the exponent, and decimal NaN and infinity are not modelled, except for the growth factor of the annuity formula; the bounds of `CashFlow.IrrNearRoot` and `EffectiveCost.NoFeesGiveNominalRate` are those of the algorithm.
- EffectiveCost.TinyRatesFailExactly: the monthly rate itself is the exact one; the rounding of its two divisions is not modelled.
- EffectiveCost.EvaluateEffectiveCost: the step texts, labels and formatted metrics of an evaluation are not modelled. The figures behind them that vary are: costs, payments, rate, limit and LPR.
- EffectiveCost.VerdictMonotone: requires non-negative rates, as the statement is about raising charges; for negative nominal rates the annuity formula itself may be undefined.
- Redline.EvaluateRedline: a confirmed value comes with its parsed readings; parsing decimals and fee texts, with their regular expressions and unit words, is not modelled.
- Redline.ConfirmedResolutions: rows are given in order of creation; the flag that marks a manual value is not kept.
- Redline.SelectLprIsLatest: among rows with equal effective dates the database chooses an order; the model takes the order of the list.
- RuleCatalog.RuleAdmin.Approve: field lengths and types of the requests, content hashes and actor columns are not modelled; nor is the parsing of LPR files.
- TemplateCatalog.ValidateTemplateItems: an unknown category is ruled out by the type, and labels and positions of items are not modelled.
- ReviewDesk.Desk.CreateResolution: the normalisation of a value and the checks of its candidate are a given outcome.
- ReviewDesk.Desk.CreateMapping: mappings are a set of pairs, so a mapping that was deleted and made again is the same one.
- ReviewDesk.Desk.CreateWaiver: the reason text and the actor are not modelled.
- ReviewDesk.Desk.CreateRedlineRun: the hash that goes with the key is given; the program computes it from what the run would freeze.
- ReviewDesk.Desk.CreateCompletenessRun: of what a run freezes, the item states and the template are modelled, the input lists only in that sorting them can fail.
- JobStore.Jobs.ClaimNextJob: row locks and skipping locked rows are the atomic choice of the oldest available job; started and finished times of steps are not modelled.
- JobStore.Jobs.CompleteApplication: whether the reports are current is given; `Lifecycle.CompletionBlockers` decides it, and `Lifecycle.StepKeepsGood` combines the two.
- Worker.ProcessOne: the object store, the validators, the parsers, OCR and the language model answer with any outcome; the renewal thread is a step of the queue.
- Intake.ReadLimited: the digest is modelled by the bytes it is computed from; collisions of SHA-256 are not modelled.
- IntakeStore.Store.SettleUpload: the unique-constraint race between two commits, and the recovery from it, cannot happen with atomic steps.
- IntakeStore.Store.ConfirmHardDelete: the newest deletion request is given, and tokens are compared by their hashes. A crash inside the loop is in `Intake.NextKeepsObjects`.
- Lifecycle.CompletionBlockers: the newest run is the last one appended; ties in creation time are not modelled.
- Markdown.ParseMarkdown: the regular expressions, the splitting of a text into lines and of a row into cells are an arbitrary classification given with each line; the path is a list of headings, not yet joined by slashes; the inner loops are methods of their own.
- HTTP routing, sessions, passwords, ownership and role checks, and request validation by schema.
- Audit rows, view events, printable HTML, and the frontend.
- The DOCX, XLSX and CSV readers, OCR and image analysis, extraction of candidate facts and redaction.
- The demo seeding at start-up, which inserts approved and published rows without the overlap check: only an initial state that satisfies the invariants is assumed.
