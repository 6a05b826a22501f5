/**
 * The review inputs of one application, its formal reports, and every request that changes them. A
 * formal report is a cache of an evaluation; staleness is a stored flag plus a live check.
 */
module Reports {
  import opened Completeness
  import opened EffectiveCost
  import opened Redline
  import opened Requests
  import opened RuleCatalog
  import opened Schedule
  import opened TemplateCatalog
  import opened Wrappers

  /** What every application of the deployment shares, down to the arithmetic. */
  datatype Catalog = Catalog(
    rules: seq<Rule>, templates: seq<Template>, lprBatches: seq<LprBatch>,
    qualification: string, production: bool, growth: Growth)

  datatype Profile = Profile(borrowerType: BorrowerType, product: string, signingDate: Option<Date>)

  datatype RunStatus = Current | Stale

  datatype StaleReason =
    | NewRun | RuleContextChange | CriticalInputChange | ApplicationChange
    | ConditionContextChange | ClassificationChange | MappingChange | WaiverChange | EvidenceReviewChange
    | RuleChanged | LprChanged | TemplateChanged

  datatype RedlineRun = RedlineRun(
    ruleId: Option<RuleId>, ruleSnapshot: Option<Rule>, referenceSnapshots: seq<Rule>,
    query: Query, result: Result, status: RunStatus, staleReason: Option<StaleReason>)

  datatype CheckRun = CheckRun(
    templateId: TemplateId, templateSnapshot: Template, states: map<string, ItemState>,
    status: RunStatus, staleReason: Option<StaleReason>)

  /** A checklist item by its template and its position in it. */
  datatype ItemId = ItemId(template: TemplateId, index: nat)

  datatype Mapping = Mapping(doc: DocId, item: ItemId)

  datatype Dossier = Dossier(
    profile: Profile, resolutions: seq<Resolution>, context: Option<string>,
    categories: map<DocId, Category>, candidates: map<DocId, set<Category>>,
    mappings: set<Mapping>, waivers: set<ItemId>, reviews: seq<Review>,
    redlineRuns: seq<RedlineRun>, checkRuns: seq<CheckRun>,
    receipts: map<IdemKey<Operation>, IdemRecord<Option<Mapping>>>)

  function NewDossier(profile: Profile): Dossier {
    Dossier(profile, [], None, map[], map[], {}, {}, [], [], [], map[])
  }

  /** What an idempotency key is for, within one application; the record of a mapping names the mapping. */
  datatype Operation =
    | AddingResolution | ConfirmingContext | ConfirmingCategory(doc: DocId) | AddingMapping | AddingWaiver
    | Reviewing(output: nat) | ReportingRedline | ReportingChecks

  // ---------------------------------------------------------------------------
  // Live evaluation
  // ---------------------------------------------------------------------------

  function QueryOf(d: Dossier, c: Catalog, today: Date): Query {
    Query(c.qualification, d.context, d.profile.product, today, d.profile.signingDate, Confirmed(d.resolutions),
        c.growth)
  }

  function LprRows(c: Catalog): seq<LprRow> {
    CurrentLprRows(c.lprBatches, c.production)
  }

  ghost function LiveRedline(d: Dossier, c: Catalog, today: Date): (result: Result)
    ensures RefersTo(result, c.rules)
  {
    var q := QueryOf(d, c, today);
    ResultRefersToRules(c.rules, q, SelectLpr(LprRows(c), LprAsOf(q)));
    RedlineEvaluation(c.rules, LprRows(c), q)
  }

  function Applicable(d: Dossier, c: Catalog): Option<TemplateId> {
    ApplicableTemplate(c.templates, d.profile.product, d.profile.borrowerType)
  }

  predicate IsItem(templates: seq<Template>, id: ItemId) {
    id.template < |templates| && id.index < |templates[id.template].items|
  }

  function ItemCode(templates: seq<Template>, id: ItemId): string
    requires IsItem(templates, id)
  {
    templates[id.template].items[id.index].code
  }

  const COLLATERAL_FIELD_KEYS := {"collateral_type", "collateral_certificate", "collateral_value"}
  const GUARANTOR_FIELD_KEYS := {"guarantor", "guarantee_method"}

  /** A condition holds once any resolution, about any subject, has one of its field keys. */
  function Conditions(rows: seq<Resolution>): set<string> {
    var keys := set r <- rows :: r.fieldKey;
    (if keys * COLLATERAL_FIELD_KEYS != {} then {"collateral"} else {})
    + (if keys * GUARANTOR_FIELD_KEYS != {} then {"guarantor"} else {})
  }

  /** Documents mapped to an item code, by an item of whichever template version. */
  function MappedDocuments(mappings: set<Mapping>, templates: seq<Template>, code: string): set<DocId> {
    set m <- mappings | IsItem(templates, m.item) && ItemCode(templates, m.item) == code :: m.doc
  }

  function EvidenceOf(d: Dossier, templates: seq<Template>): Evidence {
    var codes := set m <- d.mappings | IsItem(templates, m.item) :: ItemCode(templates, m.item);
    Evidence(
      set w <- d.waivers | IsItem(templates, w) :: ItemCode(templates, w),
      Conditions(d.resolutions),
      map code <- codes :: MappedDocuments(d.mappings, templates, code),
      d.categories, d.candidates,
      LatestPresence(d.reviews, SealPresence), LatestPresence(d.reviews, SignaturePresence))
  }

  // ---------------------------------------------------------------------------
  // Staleness
  // ---------------------------------------------------------------------------

  predicate UsesLpr(run: RedlineRun) {
    || (run.ruleSnapshot.Some? && run.ruleSnapshot.value.formula.LprMultipleLimit?)
    || exists i | 0 <= i < |run.referenceSnapshots| :: run.referenceSnapshots[i].formula.LprMultipleLimit?
  }

  function IdOf(lpr: Option<LprRow>): Option<LprId> {
    if lpr.Some? then Some(lpr.value.id) else None
  }

  function RedlineStaleReason(run: RedlineRun, d: Dossier, c: Catalog, today: Date): Option<StaleReason> {
    if run.status.Stale? then run.staleReason
    else
      var now := SelectPrimaryRule(c.rules, c.qualification, d.context, d.profile.product, today);
      if now.rule != run.ruleId then Some(RuleChanged)
      else if UsesLpr(run) && IdOf(SelectLpr(LprRows(c), run.result.lprAsOf)) != IdOf(run.result.lpr)
      then Some(LprChanged)
      else run.staleReason
  }

  predicate RedlineIsStale(run: RedlineRun, d: Dossier, c: Catalog, today: Date) {
    run.status.Stale? || RedlineStaleReason(run, d, c, today).Some?
  }

  predicate CheckIsStale(run: CheckRun, applicable: Option<TemplateId>) {
    run.status.Stale? || (applicable.Some? && applicable.value != run.templateId)
  }

  function StaleRedline(run: RedlineRun, reason: StaleReason): RedlineRun {
    if run.status.Current? then run.(status := Stale, staleReason := Some(reason)) else run
  }

  function StaleCheck(run: CheckRun, reason: StaleReason): CheckRun {
    if run.status.Current? then run.(status := Stale, staleReason := Some(reason)) else run
  }

  function StaleRedlines(runs: seq<RedlineRun>, reason: StaleReason): (r: seq<RedlineRun>)
    ensures |r| == |runs| && forall i | 0 <= i < |r| :: r[i] == StaleRedline(runs[i], reason)
  {
    seq(|runs|, i requires 0 <= i < |runs| => StaleRedline(runs[i], reason))
  }

  function StaleChecks(runs: seq<CheckRun>, reason: StaleReason): (r: seq<CheckRun>)
    ensures |r| == |runs| && forall i | 0 <= i < |r| :: r[i] == StaleCheck(runs[i], reason)
  {
    seq(|runs|, i requires 0 <= i < |runs| => StaleCheck(runs[i], reason))
  }

  // ---------------------------------------------------------------------------
  // Requests
  // ---------------------------------------------------------------------------

  /** The seal that a review points to: none, one on a page of the reviewed output, or another one. */
  datatype Seal = NoSeal | SealOfOutput | OtherSeal

  /** A resolution comes with the result of checking its value and its candidate. */
  datatype Request =
    | UpdateProfile(profile: Profile)
    | ConfirmContext(context: string)
    | CreateResolution(resolution: Resolution, checked: Outcome)
    | ConfirmCategory(doc: DocId, category: Category)
    | CreateMapping(doc: DocId, item: ItemId)
    | DeleteMapping(mapping: Mapping)
    | CreateWaiver(item: ItemId)
    | CreateReview(review: Review, output: nat, seal: Seal)
    | CreateRedlineRun
    | CreateCheckRun
    | AddCandidates(doc: DocId, found: seq<Category>)

  function Candidates(candidates: map<DocId, set<Category>>, doc: DocId): set<Category> {
    if doc in candidates then candidates[doc] else {}
  }

  /** Each found category is added to the candidates of the document unless it is there. */
  function MoreCandidates(candidates: map<DocId, set<Category>>, doc: DocId, found: seq<Category>)
    : map<DocId, set<Category>>
  {
    if found == [] then candidates
    else
      var before := MoreCandidates(candidates, doc, found[..|found| - 1]);
      before[doc := Candidates(before, doc) + {found[|found| - 1]}]
  }

  predicate DemoRefused(result: Result, c: Catalog)
    requires RefersTo(result, c.rules)
  {
    && c.production
    && (|| (result.selection.rule.Some? && c.rules[result.selection.rule.value].demoOnly)
        || exists i | 0 <= i < |result.references| :: c.rules[result.references[i].0].demoOnly)
  }

  function SnapshotOf(result: Result, q: Query, rules: seq<Rule>): RedlineRun
    requires RefersTo(result, rules)
  {
    var id := result.selection.rule;
    RedlineRun(
      id, if id.Some? then Some(rules[id.value]) else None,
      seq(|result.references|, i requires 0 <= i < |result.references| => rules[result.references[i].0]),
      q, result, Current, None)
  }

  /** The presence of a seal is stated of a seal found on the output; that of a signature of nothing found. */
  predicate SealFits(kind: ReviewKind, seal: Seal) {
    if kind.SealPresence? then seal.SealOfOutput? else seal.NoSeal?
  }

  /** The frozen lists of mappings and waivers are sorted, but their entries have no order: two are one too many. */
  predicate Unsortable(d: Dossier, templates: seq<Template>) {
    |MappedPairs(d, templates)| > 1 || |WaivedCodes(d, templates)| > 1
  }

  function MappedPairs(d: Dossier, templates: seq<Template>): set<(DocId, string)> {
    set m <- d.mappings | IsItem(templates, m.item) :: (m.doc, ItemCode(templates, m.item))
  }

  function WaivedCodes(d: Dossier, templates: seq<Template>): set<string> {
    set w <- d.waivers | IsItem(templates, w) :: ItemCode(templates, w)
  }

  ghost function Serve(d: Dossier, c: Catalog, docs: set<DocId>, today: Date, request: Request): (Dossier, Outcome) {
    match request
    case UpdateProfile(profile) =>
      (d.(profile := profile, redlineRuns := StaleRedlines(d.redlineRuns, ApplicationChange)), Accepted)
    case ConfirmContext(context) =>
      (d.(context := Some(context), redlineRuns := StaleRedlines(d.redlineRuns, RuleContextChange)), Accepted)
    case CreateResolution(resolution, checked) =>
      if !checked.Accepted? then (d, checked)
      else (d.(resolutions := d.resolutions + [resolution],
               checkRuns := StaleChecks(d.checkRuns, ConditionContextChange),
               redlineRuns := StaleRedlines(d.redlineRuns, CriticalInputChange)), Accepted)
    case ConfirmCategory(doc, category) =>
      if doc !in docs then (d, Unprocessable)
      else (d.(categories := d.categories[doc := category],
               checkRuns := StaleChecks(d.checkRuns, ClassificationChange)), Accepted)
    case CreateMapping(doc, item) =>
      if Applicable(d, c).None? then (d, Conflict)
      else if doc !in docs || !IsItem(c.templates, item)
          || item.template != Applicable(d, c).value then (d, Unprocessable)
      else if Mapping(doc, item) in d.mappings then (d, Accepted)
      else (d.(mappings := d.mappings + {Mapping(doc, item)},
               checkRuns := StaleChecks(d.checkRuns, MappingChange)), Accepted)
    case DeleteMapping(mapping) =>
      if mapping !in d.mappings then (d, NotFound)
      else (d.(mappings := d.mappings - {mapping},
               checkRuns := StaleChecks(d.checkRuns, MappingChange)), Accepted)
    case CreateWaiver(item) =>
      if Applicable(d, c).None? then (d, Conflict)
      else if !IsItem(c.templates, item) || item.template != Applicable(d, c).value then (d, Unprocessable)
      else if item in d.waivers then (d, Accepted)
      else (d.(waivers := d.waivers + {item},
               checkRuns := StaleChecks(d.checkRuns, WaiverChange)), Accepted)
    case CreateReview(review, _, seal) =>
      if review.doc !in docs then (d, NotFound)
      else if !SealFits(review.kind, seal) then (d, Unprocessable)
      else (d.(reviews := d.reviews + [review],
               checkRuns := StaleChecks(d.checkRuns, EvidenceReviewChange)), Accepted)
    case CreateRedlineRun =>
      var result := LiveRedline(d, c, today);
      if Fails(result) then (d, ServerError)
      else if DemoRefused(result, c) then (d, Unprocessable)
      else (d.(redlineRuns := StaleRedlines(d.redlineRuns, NewRun)
                              + [SnapshotOf(result, QueryOf(d, c, today), c.rules)]), Accepted)
    case CreateCheckRun =>
      var applicable := Applicable(d, c);
      if applicable.None? then (d, Unprocessable)
      else
        var template := c.templates[applicable.value];
        if c.production && template.demoOnly then (d, Unprocessable)
        else if Unsortable(d, c.templates) then (d, ServerError)
        else
          var states := EvaluateItems(template.items, EvidenceOf(d, c.templates));
          (d.(checkRuns := StaleChecks(d.checkRuns, NewRun)
                           + [CheckRun(applicable.value, template, states, Current, None)]), Accepted)
    case AddCandidates(doc, found) =>
      if doc !in docs then (d, NotFound)
      else (d.(candidates := MoreCandidates(d.candidates, doc, found)), Accepted)
  }

  lemma MoreThanOne<T>(s: set<T>)
    ensures |s| > 1 <==> exists a, b :: a in s && b in s && a != b
  {
    if |s| > 1 {
      var a :| a in s;
      assert |s - {a}| == |s| - 1;
      var b :| b in s - {a};
      assert a in s && b in s && a != b;
    }
    if a, b :| a in s && b in s && a != b {
      assert {a, b} <= s && |s| == |s - {a, b}| + |{a, b}|;
    }
  }

  predicate MappingsDiffer(templates: seq<Template>, m: Mapping, n: Mapping) {
    && IsItem(templates, m.item) && IsItem(templates, n.item)
    && (m.doc, ItemCode(templates, m.item)) != (n.doc, ItemCode(templates, n.item))
  }

  predicate WaiversDiffer(templates: seq<Template>, v: ItemId, w: ItemId) {
    IsItem(templates, v) && IsItem(templates, w) && ItemCode(templates, v) != ItemCode(templates, w)
  }

  /** Two mappings that differ in document or item code. */
  ghost predicate TwoMappings(d: Dossier, templates: seq<Template>) {
    exists m, n :: m in d.mappings && n in d.mappings && MappingsDiffer(templates, m, n)
  }

  /** Two waivers that differ in item code. */
  ghost predicate TwoWaivers(d: Dossier, templates: seq<Template>) {
    exists v, w :: v in d.waivers && w in d.waivers && WaiversDiffer(templates, v, w)
  }

  lemma TwoPairsExactly(d: Dossier, templates: seq<Template>, pairs: set<(DocId, string)>)
    requires pairs == set m <- d.mappings | IsItem(templates, m.item) :: (m.doc, ItemCode(templates, m.item))
    ensures |pairs| > 1 <==> TwoMappings(d, templates)
  {
    MoreThanOne(pairs);
    if m, n :| m in d.mappings && n in d.mappings && MappingsDiffer(templates, m, n) {
      assert (m.doc, ItemCode(templates, m.item)) in pairs && (n.doc, ItemCode(templates, n.item)) in pairs;
    }
    if |pairs| > 1 {
      var a, b :| a in pairs && b in pairs && a != b;
      var m :| m in d.mappings && IsItem(templates, m.item) && a == (m.doc, ItemCode(templates, m.item));
      var n :| n in d.mappings && IsItem(templates, n.item) && b == (n.doc, ItemCode(templates, n.item));
      assert MappingsDiffer(templates, m, n);
    }
  }

  lemma TwoCodesExactly(d: Dossier, templates: seq<Template>, codes: set<string>)
    requires codes == set w <- d.waivers | IsItem(templates, w) :: ItemCode(templates, w)
    ensures |codes| > 1 <==> TwoWaivers(d, templates)
  {
    MoreThanOne(codes);
    if v, w :| v in d.waivers && w in d.waivers && WaiversDiffer(templates, v, w) {
      assert ItemCode(templates, v) in codes && ItemCode(templates, w) in codes;
    }
    if |codes| > 1 {
      var a, b :| a in codes && b in codes && a != b;
      var v :| v in d.waivers && IsItem(templates, v) && a == ItemCode(templates, v);
      var w :| w in d.waivers && IsItem(templates, w) && b == ItemCode(templates, w);
      assert WaiversDiffer(templates, v, w);
    }
  }

  /**
   * Exactly when a completeness report can be made, and when making it fails: a template must apply, not be a
   * demo one in production, and no two mappings or waivers may differ.
   */
  lemma ChecklistReportExactly(d: Dossier, c: Catalog, docs: set<DocId>, today: Date)
    ensures var outcome, applicable := Serve(d, c, docs, today, CreateCheckRun).1, Applicable(d, c);
            var permitted := applicable.Some? && !(c.production && c.templates[applicable.value].demoOnly);
            && (outcome.ServerError? <==> permitted && (TwoMappings(d, c.templates) || TwoWaivers(d, c.templates)))
            && (outcome.Accepted? <==> permitted && !TwoMappings(d, c.templates) && !TwoWaivers(d, c.templates))
  {
    TwoPairsExactly(d, c.templates, MappedPairs(d, c.templates));
    TwoCodesExactly(d, c.templates, WaivedCodes(d, c.templates));
  }

  // ---------------------------------------------------------------------------
  // Coherence of the redline report
  // ---------------------------------------------------------------------------

  predicate PublishedRow(batches: seq<LprBatch>, row: LprRow) {
    && row.id.batch < |batches| && batches[row.id.batch].published
    && row.id.index < |batches[row.id.batch].entries|
    && row.entry == batches[row.id.batch].entries[row.id.index]
  }

  /** Only the newest run of a kind can be current, and a reason is stored exactly when a run is stale. */
  ghost predicate RedlineFlags(runs: seq<RedlineRun>) {
    && (forall i | 0 <= i < |runs| - 1 :: runs[i].status.Stale?)
    && forall i | 0 <= i < |runs| :: runs[i].status.Stale? <==> runs[i].staleReason.Some?
  }

  ghost predicate CheckFlags(runs: seq<CheckRun>) {
    && (forall i | 0 <= i < |runs| - 1 :: runs[i].status.Stale?)
    && forall i | 0 <= i < |runs| :: runs[i].status.Stale? <==> runs[i].staleReason.Some?
  }

  ghost function EvaluationIn(q: Query, formula: Calc, lprPct: Option<real>): Evaluation {
    RuleEvaluation(formula, InputsOf(q.confirmed), lprPct, q.growth)
  }

  /** A run stored as current froze today's inputs, and its rule and LPR rows are still what they were. */
  ghost predicate RedlineCached(run: RedlineRun, d: Dossier, c: Catalog) {
    && run.query == QueryOf(d, c, run.query.evaluationDate)
    && run.result.lprAsOf == LprAsOf(run.query)
    && (run.result.lpr.Some? ==> PublishedRow(c.lprBatches, run.result.lpr.value))
    && (run.ruleId.Some? <==> run.ruleSnapshot.Some?)
    && (run.ruleId.Some? ==>
          && run.ruleId.value < |c.rules| && !c.rules[run.ruleId.value].status.Draft?
          && run.ruleSnapshot.value.(status := c.rules[run.ruleId.value].status) == c.rules[run.ruleId.value])
    && run.result.primary ==
         (if run.ruleId.Some?
          then Some(EvaluationIn(run.query, run.ruleSnapshot.value.formula, ValueOf(run.result.lpr)))
          else None)
    && (run.result.primary.Some? ==> !run.result.primary.value.DivisionByZero?)
    && ReferencesCached(run, c.rules)
  }

  /** The references are listed in order of their rules, which are still what they were. */
  ghost predicate ReferencesCached(run: RedlineRun, rules: seq<Rule>) {
    var refs := run.result.references;
    && |run.referenceSnapshots| == |refs|
    && (forall i, j | 0 <= i < j < |refs| :: refs[i].0 < refs[j].0)
    && forall i | 0 <= i < |refs| ::
         && refs[i].0 < |rules| && !rules[refs[i].0].status.Draft?
         && run.referenceSnapshots[i].formula == rules[refs[i].0].formula
         && refs[i].1 == Downgrade(EvaluationIn(run.query, rules[refs[i].0].formula, ValueOf(run.result.lpr)))
  }

  ghost predicate RedlineCoherent(d: Dossier, c: Catalog) {
    && RedlineFlags(d.redlineRuns)
    && forall i | 0 <= i < |d.redlineRuns| && d.redlineRuns[i].status.Current? :: RedlineCached(d.redlineRuns[i], d, c)
  }

  lemma {:induction false} CurrentRowsArePublished(batches: seq<LprBatch>, production: bool)
    ensures forall i | 0 <= i < |CurrentLprRows(batches, production)| ::
              PublishedRow(batches, CurrentLprRows(batches, production)[i])
  {
    if batches != [] {
      var front := batches[..|batches| - 1];
      CurrentRowsArePublished(front, production);
      assert forall row | PublishedRow(front, row) :: PublishedRow(batches, row);
    }
  }

  lemma SelectedRowIsPublished(c: Catalog, asOf: Date)
    ensures SelectLpr(LprRows(c), asOf).Some? ==> PublishedRow(c.lprBatches, SelectLpr(LprRows(c), asOf).value)
  {
    CurrentRowsArePublished(c.lprBatches, c.production);
    SelectLprIsLatest(LprRows(c), asOf);
  }

  /** The primary evaluation reads the LPR only through the value of the selected row, and only for LPR rules. */
  lemma PrimaryDependsOnLprValue(formula: Calc, q: Query, a: Option<real>, b: Option<real>)
    requires !formula.LprMultipleLimit? || a == b
    ensures EvaluationIn(q, formula, a) == EvaluationIn(q, formula, b)
  {
  }

  /**
   * The run is the newest, and evaluating now against the LPR for its as-of date gives the same evaluation
   * and verdict; with a signing date that is what a new report would say.
   */
  ghost predicate RedlineAgrees(run: RedlineRun, d: Dossier, c: Catalog, today: Date) {
    var again := EvaluationAgainst(c.rules, QueryOf(d, c, today), SelectLpr(LprRows(c), run.result.lprAsOf));
    && d.redlineRuns != [] && run == d.redlineRuns[|d.redlineRuns| - 1]
    && again.primary == run.result.primary
    && (run.result.primary.Some? ==> !run.result.primary.value.DivisionByZero?)
    && OverallState(again) == OverallState(run.result)
    && (d.profile.signingDate.Some? ==> LiveRedline(d, c, today).primary == run.result.primary)
  }

  /**
   * The newest report, when it is not reported stale, agrees with evaluating again now: with today's
   * unique rule, the inputs as they are now, and the LPR for the report's as-of date.
   */
  lemma RedlineReportAgrees(d: Dossier, c: Catalog, today: Date, run: RedlineRun)
    requires RedlineCoherent(d, c) && run in d.redlineRuns && !RedlineIsStale(run, d, c, today)
    ensures RedlineAgrees(run, d, c, today)
  {
    var i :| 0 <= i < |d.redlineRuns| && d.redlineRuns[i] == run;
    assert RedlineCached(run, d, c);
    SelectedRowIsPublished(c, run.result.lprAsOf);
    var now := SelectLpr(LprRows(c), run.result.lprAsOf);
    if run.ruleId.Some? {
      PrimaryDependsOnLprValue(run.ruleSnapshot.value.formula, run.query, ValueOf(run.result.lpr), ValueOf(now));
    }
  }

  /** An LPR rule is evaluated alike: both values are there or missing, and equal once a rate is compared with them. */
  predicate SameReading(formula: Calc, inputs: Inputs, a: Option<real>, b: Option<real>) {
    formula.LprMultipleLimit? ==> (a.Some? <==> b.Some?) && (inputs.annualRatePct.Some? ==> a == b)
  }

  /**
   * Its verdict is the same: both are there or missing and put the rate on one side of their limits, or there
   * is no rate.
   */
  predicate SameSide(formula: Calc, inputs: Inputs, a: Option<real>, b: Option<real>) {
    formula.LprMultipleLimit? && inputs.annualRatePct.Some? ==>
      && (a.Some? <==> b.Some?)
      && (a.Some? ==>
            (RateFrac(inputs.annualRatePct.value) > RateFrac(a.value) * formula.multiplier <==>
             RateFrac(inputs.annualRatePct.value) > RateFrac(b.value) * formula.multiplier))
  }

  /** The verdict, if there is an evaluation at all. */
  function VerdictIn(e: Evaluation): Option<Verdict> {
    if e.DivisionByZero? then None else Some(VerdictOf(e))
  }

  /** Exactly when two LPR values give one evaluation, and one verdict, as a primary rule and as a reference. */
  lemma SameEvaluationExactly(formula: Calc, q: Query, a: Option<real>, b: Option<real>)
    ensures var x, y, inputs := EvaluationIn(q, formula, a), EvaluationIn(q, formula, b), InputsOf(q.confirmed);
            && (x == y <==> SameReading(formula, inputs, a, b))
            && (Downgrade(x) == Downgrade(y) <==> SameReading(formula, inputs, a, b))
            && (VerdictIn(x) == VerdictIn(y) <==> SameSide(formula, inputs, a, b))
            && (VerdictIn(Downgrade(x)) == VerdictIn(Downgrade(y)) <==> SameSide(formula, inputs, a, b))
            && (x.DivisionByZero? <==> y.DivisionByZero?)
  {
    var inputs := InputsOf(q.confirmed);
    if formula.LprMultipleLimit? {
      assert EvaluationIn(q, formula, a) == LimitOnLprMultiple(inputs.annualRatePct, a, formula.multiplier);
      assert EvaluationIn(q, formula, b) == LimitOnLprMultiple(inputs.annualRatePct, b, formula.multiplier);
    } else {
      PrimaryDependsOnLprValue(formula, q, a, b);
    }
  }

  /** There is a signing date, or no rule, or a rule that does not use the LPR. */
  predicate LprIsSettled(run: RedlineRun, d: Dossier) {
    || d.profile.signingDate.Some? || run.ruleSnapshot.None? || !run.ruleSnapshot.value.formula.LprMultipleLimit?
  }

  /**
   * Without a signing date the LPR is checked at the frozen date only. A report that is not reported stale
   * has the evaluation of a new one exactly when there is a signing date, there is no rule, the rule does not
   * use the LPR, or the LPR of today is the frozen one as far as the rule reads it; and the verdict of a new
   * one exactly when, failing that, both put the confirmed rate on the same side of the limit.
   */
  lemma ReportAgreesIff(d: Dossier, c: Catalog, today: Date, run: RedlineRun)
    requires RedlineCoherent(d, c) && run in d.redlineRuns && !RedlineIsStale(run, d, c, today)
    ensures var q := QueryOf(d, c, today);
            var live, latest, frozen := LiveRedline(d, c, today), ValueOf(SelectLpr(LprRows(c), LprAsOf(q))),
                ValueOf(run.result.lpr);
            && (live.primary == run.result.primary <==>
                  || LprIsSettled(run, d)
                  || SameReading(run.ruleSnapshot.value.formula, InputsOf(q.confirmed), latest, frozen))
            && (live.primary.Some? ==> !live.primary.value.DivisionByZero?)
            && (run.result.primary.Some? ==> !run.result.primary.value.DivisionByZero?)
            && (OverallState(live) == OverallState(run.result) <==>
                  || LprIsSettled(run, d)
                  || SameSide(run.ruleSnapshot.value.formula, InputsOf(q.confirmed), latest, frozen))
  {
    var i :| 0 <= i < |d.redlineRuns| && d.redlineRuns[i] == run;
    assert RedlineCached(run, d, c);
    RedlineReportAgrees(d, c, today, run);
    if run.ruleSnapshot.Some? {
      SameEvaluationExactly(run.ruleSnapshot.value.formula, QueryOf(d, c, today),
                            ValueOf(SelectLpr(LprRows(c), LprAsOf(QueryOf(d, c, today)))), ValueOf(run.result.lpr));
      SameEvaluationExactly(run.ruleSnapshot.value.formula, run.query, ValueOf(run.result.lpr),
          ValueOf(run.result.lpr));
    }
  }

  /**
   * So a provisional report of an LPR rule has the verdict of a new one for every confirmed rate exactly when
   * the two LPR values are equal: otherwise some rate gives opposite verdicts.
   */
  lemma ProvisionalReportAgreesIff(d: Dossier, c: Catalog, today: Date, run: RedlineRun)
    requires RedlineCoherent(d, c) && run in d.redlineRuns && !RedlineIsStale(run, d, c, today)
    requires d.profile.signingDate.None? && Unambiguous(c.rules)
    requires run.ruleId.Some? && run.ruleSnapshot.value.formula.LprMultipleLimit?
    ensures var latest := SelectLpr(LprRows(c), today);
            (ValueOf(latest) == ValueOf(run.result.lpr)) <==>
            forall inputs: Inputs ::
              VerdictIn(RuleEvaluation(run.ruleSnapshot.value.formula, inputs, ValueOf(latest), c.growth))
              == VerdictIn(RuleEvaluation(run.ruleSnapshot.value.formula, inputs, ValueOf(run.result.lpr), c.growth))
    ensures LiveRedline(d, c, today).primary
         == Some(EvaluationIn(QueryOf(d, c, today), run.ruleSnapshot.value.formula, ValueOf(SelectLpr(LprRows(c),
             today))))
  {
    var i :| 0 <= i < |d.redlineRuns| && d.redlineRuns[i] == run;
    assert RedlineCached(run, d, c);
    var formula, frozen := run.ruleSnapshot.value.formula, ValueOf(run.result.lpr);
    var latest := ValueOf(SelectLpr(LprRows(c), today));
    assert ValidCalc(c.rules[run.ruleId.value].formula);
    if latest != frozen {
      var rate := TellingRate(frozen, latest, formula.multiplier);
      var inputs := Inputs(None, None, Some(rate), None, None, None);
      assert VerdictIn(RuleEvaluation(formula, inputs, latest, c.growth))
          != VerdictIn(RuleEvaluation(formula, inputs, frozen, c.growth));
    }
  }

  /** A rate between the two limits, or any rate when one LPR is missing. */
  lemma TellingRate(a: Option<real>, b: Option<real>, multiplier: real) returns (rate: real)
    requires a != b && multiplier > 0.0
    ensures VerdictIn(LimitOnLprMultiple(Some(rate), a, multiplier)) != VerdictIn(LimitOnLprMultiple(Some(rate), b,
        multiplier))
  {
    if a.Some? && b.Some? {
      var low, high := if a.value < b.value then a.value else b.value, if a.value < b.value then b.value else a.value;
      LimitsDiffer(low, high, multiplier);
      rate := high / 100.0 * multiplier * 100.0;
    } else {
      rate := 0.0;
    }
  }

  lemma LimitsDiffer(low: real, high: real, multiplier: real)
    requires low < high && multiplier > 0.0
    ensures RateFrac(high / 100.0 * multiplier * 100.0) == RateFrac(high) * multiplier > RateFrac(low) * multiplier
  {
    assert high / 100.0 > low / 100.0;
  }

  // ---------------------------------------------------------------------------
  // Coherence of the completeness report
  // ---------------------------------------------------------------------------

  ghost predicate OfPublishedTemplate(templates: seq<Template>, id: ItemId) {
    IsItem(templates, id) && !templates[id.template].status.Drafted?
  }

  /**
   * A run stored as current froze a template that is still the same, and states nothing but candidates can
   * have moved.
   */
  ghost predicate CheckCached(run: CheckRun, d: Dossier, templates: seq<Template>) {
    && run.templateId < |templates| && !templates[run.templateId].status.Drafted?
    && run.templateSnapshot.(status := templates[run.templateId].status) == templates[run.templateId]
    && forall i | 0 <= i < |run.templateSnapshot.items| ::
         var item := run.templateSnapshot.items[i];
         && item.code in run.states
         && EvaluateItem(item, EvidenceOf(d, templates)) == Since(run.states[item.code], item, EvidenceOf(d, templates))
  }

  ghost predicate CheckCoherent(d: Dossier, templates: seq<Template>) {
    && CheckFlags(d.checkRuns)
    && (forall m <- d.mappings :: OfPublishedTemplate(templates, m.item))
    && (forall w <- d.waivers :: OfPublishedTemplate(templates, w))
    && forall i | 0 <= i < |d.checkRuns| && d.checkRuns[i].status.Current? :: CheckCached(d.checkRuns[i], d, templates)
  }

  /**
   * The run is the newest, of the template that applies if one does, and its states are the live ones up to
   * candidates.
   */
  ghost predicate ChecksAgree(run: CheckRun, d: Dossier, c: Catalog) {
    var items, evidence := run.templateSnapshot.items, EvidenceOf(d, c.templates);
    var live := EvaluateItems(items, evidence);
    && d.checkRuns != [] && run == d.checkRuns[|d.checkRuns| - 1]
    && (Applicable(d, c).Some? ==> Applicable(d, c).value == run.templateId)
    && run.templateId < |c.templates| && items == c.templates[run.templateId].items
    && forall i | 0 <= i < |items| ::
         && items[i].code in live && items[i].code in run.states
         && live[items[i].code] ==
              if run.states[items[i].code].Missing? && HasCandidate(evidence, items[i].category)
              then PendingConfirmation else run.states[items[i].code]
  }

  /**
   * A report stored as current agrees, item by item, with evaluating its template again now, except that
   * an item frozen as missing is pending confirmation once a candidate of its category exists. When the
   * report is not reported stale and a template applies, that is the live checklist of the application.
   */
  lemma CheckReportAgrees(d: Dossier, c: Catalog, run: CheckRun)
    requires CheckCoherent(d, c.templates) && OnePublished(c.templates)
    requires run in d.checkRuns && !CheckIsStale(run, Applicable(d, c))
    ensures ChecksAgree(run, d, c)
  {
    var i :| 0 <= i < |d.checkRuns| && d.checkRuns[i] == run;
    assert CheckCached(run, d, c.templates);
    EachItemHasItsState(run.templateSnapshot.items, EvidenceOf(d, c.templates));
  }

  // ---------------------------------------------------------------------------
  // Every request, and every change of the catalog, keeps both
  // ---------------------------------------------------------------------------

  lemma SnapshotListsReferences(c: Catalog, q: Query, result: Result, run: RedlineRun)
    requires result == RedlineEvaluation(c.rules, LprRows(c), q) && RefersTo(result, c.rules)
    requires run == SnapshotOf(result, q, c.rules)
    ensures ReferencesCached(run, c.rules)
  {
    ReferencesOnlyWarn(c.rules, q, ValueOf(result.lpr), result.references);
  }

  lemma SnapshotIsCached(d: Dossier, c: Catalog, today: Date, result: Result, run: RedlineRun)
    requires Unambiguous(c.rules) && result == LiveRedline(d, c, today) && !Fails(result)
    requires run == SnapshotOf(result, QueryOf(d, c, today), c.rules)
    ensures RedlineCached(run, d, c)
  {
    SelectionIsExact(c.rules, c.qualification, d.context, d.profile.product, today);
    SelectedRowIsPublished(c, LprAsOf(QueryOf(d, c, today)));
    SnapshotListsReferences(c, QueryOf(d, c, today), result, run);
  }

  lemma NewRedlineRunIsCached(d: Dossier, c: Catalog, today: Date, result: Result)
    requires RedlineCoherent(d, c) && Unambiguous(c.rules)
    requires result == LiveRedline(d, c, today) && !Fails(result)
    ensures RedlineCoherent(d.(redlineRuns := StaleRedlines(d.redlineRuns, NewRun)
                                              + [SnapshotOf(result, QueryOf(d, c, today), c.rules)]), c)
  {
    SnapshotIsCached(d, c, today, result, SnapshotOf(result, QueryOf(d, c, today), c.rules));
  }

  lemma ServeKeepsRedline(d: Dossier, c: Catalog, docs: set<DocId>, today: Date, request: Request)
    requires RedlineCoherent(d, c) && Unambiguous(c.rules)
    ensures RedlineCoherent(Serve(d, c, docs, today, request).0, c)
  {
    var after := Serve(d, c, docs, today, request).0;
    if request.CreateRedlineRun? {
      if after != d {
        NewRedlineRunIsCached(d, c, today, LiveRedline(d, c, today));
      }
    } else {
      OtherRequestsKeepRedline(d, c, docs, today, request);
    }
  }

  lemma OtherRequestsKeepRedline(d: Dossier, c: Catalog, docs: set<DocId>, today: Date, request: Request)
    requires RedlineCoherent(d, c) && !request.CreateRedlineRun?
    ensures RedlineCoherent(Serve(d, c, docs, today, request).0, c)
  {
    var after := Serve(d, c, docs, today, request).0;
    forall i | 0 <= i < |after.redlineRuns| && after.redlineRuns[i].status.Current?
      ensures RedlineCached(after.redlineRuns[i], after, c)
    {
      assert RedlineCached(d.redlineRuns[i], d, c);
    }
  }

  lemma SameEvidence(d: Dossier, before: seq<Template>, after: seq<Template>)
    requires TemplatesFrozen(before, after)
    requires forall m <- d.mappings :: OfPublishedTemplate(before, m.item)
    requires forall w <- d.waivers :: OfPublishedTemplate(before, w)
    ensures forall m <- d.mappings :: OfPublishedTemplate(after, m.item)
    ensures forall w <- d.waivers :: OfPublishedTemplate(after, w)
    ensures EvidenceOf(d, after) == EvidenceOf(d, before)
  {
    forall id: ItemId | OfPublishedTemplate(before, id)
      ensures OfPublishedTemplate(after, id) && ItemCode(after, id) == ItemCode(before, id)
    {
      assert after[id.template].items == before[id.template].items;
    }
    SameCodesSameEvidence(d, before, after);
  }

  lemma SameCodesSameEvidence(d: Dossier, before: seq<Template>, after: seq<Template>)
    requires forall m <- d.mappings ::
               IsItem(before, m.item) && IsItem(after, m.item) && ItemCode(after, m.item) == ItemCode(before, m.item)
    requires forall w <- d.waivers :: IsItem(before, w) && IsItem(after, w) && ItemCode(after, w) == ItemCode(before, w)
    ensures EvidenceOf(d, after) == EvidenceOf(d, before)
  {
    assert forall code :: MappedDocuments(d.mappings, after, code) == MappedDocuments(d.mappings, before, code);
  }

  lemma {:induction false} CandidatesGrow(candidates: map<DocId, set<Category>>, doc: DocId, found: seq<Category>)
    ensures var after := MoreCandidates(candidates, doc, found);
            && (forall k <- candidates :: k in after && candidates[k] <= after[k])
            && (forall k | k != doc :: Candidates(after, k) == Candidates(candidates, k))
            && (forall category :: category in Candidates(after, doc) <==>
                  category in Candidates(candidates, doc) || category in found)
  {
    if found != [] {
      CandidatesGrow(candidates, doc, found[..|found| - 1]);
    }
  }

  lemma CandidatesKeepChecks(d: Dossier, templates: seq<Template>, doc: DocId, found: seq<Category>)
    requires CheckCoherent(d, templates)
    ensures CheckCoherent(d.(candidates := MoreCandidates(d.candidates, doc, found)), templates)
  {
    var after := d.(candidates := MoreCandidates(d.candidates, doc, found));
    CandidatesGrow(d.candidates, doc, found);
    assert OnlyMoreCandidates(EvidenceOf(d, templates), EvidenceOf(after, templates));
    forall i | 0 <= i < |d.checkRuns| && d.checkRuns[i].status.Current?
      ensures CheckCached(d.checkRuns[i], after, templates)
    {
      assert CheckCached(d.checkRuns[i], d, templates);
      forall item: Item {
        CandidatesOnlyRaiseMissing(item, EvidenceOf(d, templates), EvidenceOf(after, templates));
      }
    }
  }

  lemma NewCheckRunIsCached(d: Dossier, templates: seq<Template>, id: TemplateId, after: Dossier)
    requires CheckCoherent(d, templates) && OnePublished(templates)
    requires id < |templates| && templates[id].status.Published?
    requires var states := EvaluateItems(templates[id].items, EvidenceOf(d, templates));
             after == d.(checkRuns := StaleChecks(d.checkRuns, NewRun)
                                      + [CheckRun(id, templates[id], states, Current, None)])
    ensures CheckCoherent(after, templates)
  {
    var evidence := EvidenceOf(d, templates);
    assert EvidenceOf(after, templates) == evidence;
    EachItemHasItsState(templates[id].items, evidence);
    forall item: Item
      ensures EvaluateItem(item, evidence) == Since(EvaluateItem(item, evidence), item, evidence)
    {
      SatisfiedNeedsConfirmedEvidence(item, evidence);
    }
    assert CheckCached(after.checkRuns[|d.checkRuns|], after, templates);
  }

  /** Only requests that stale every report change what the checklist reads, apart from candidates. */
  lemma ServeKeepsChecks(d: Dossier, c: Catalog, docs: set<DocId>, today: Date, request: Request)
    requires CheckCoherent(d, c.templates) && OnePublished(c.templates)
    ensures CheckCoherent(Serve(d, c, docs, today, request).0, c.templates)
  {
    var after := Serve(d, c, docs, today, request).0;
    if request.AddCandidates? {
      CandidatesKeepChecks(d, c.templates, request.doc, request.found);
    } else if request.CreateCheckRun? {
      if after != d { NewCheckRunIsCached(d, c.templates, Applicable(d, c).value, after); }
    } else {
      OtherRequestsKeepLinks(d, c, docs, today, request);
      OtherRequestsKeepFlags(d, c, docs, today, request, after.checkRuns);
      if after.checkRuns == d.checkRuns && exists i | 0 <= i < |d.checkRuns| :: d.checkRuns[i].status.Current? {
        InputsUnchanged(d, c, docs, today, request);
        SameInputsKeepChecks(d, after, c.templates);
      }
    }
  }

  lemma StaleChecksKeepFlags(runs: seq<CheckRun>, reason: StaleReason)
    requires CheckFlags(runs)
    ensures CheckFlags(StaleChecks(runs, reason))
    ensures forall i | 0 <= i < |runs| :: StaleChecks(runs, reason)[i].status.Stale?
  {
  }

  lemma OtherRequestsKeepFlags(d: Dossier, c: Catalog, docs: set<DocId>, today: Date, request: Request,
      after: seq<CheckRun>)
    requires CheckFlags(d.checkRuns) && !request.AddCandidates? && !request.CreateCheckRun?
    requires after == Serve(d, c, docs, today, request).0.checkRuns
    ensures CheckFlags(after) && (after == d.checkRuns || forall i | 0 <= i < |after| :: after[i].status.Stale?)
  {
    match request
    case CreateResolution(_, _) => StaleChecksKeepFlags(d.checkRuns, ConditionContextChange);
    case ConfirmCategory(_, _) => StaleChecksKeepFlags(d.checkRuns, ClassificationChange);
    case CreateMapping(_, _) => StaleChecksKeepFlags(d.checkRuns, MappingChange);
    case DeleteMapping(_) => StaleChecksKeepFlags(d.checkRuns, MappingChange);
    case CreateWaiver(_) => StaleChecksKeepFlags(d.checkRuns, WaiverChange);
    case CreateReview(_, _, _) => StaleChecksKeepFlags(d.checkRuns, EvidenceReviewChange);
    case _ =>
  }

  lemma OtherRequestsKeepLinks(d: Dossier, c: Catalog, docs: set<DocId>, today: Date, request: Request)
    requires forall m <- d.mappings :: OfPublishedTemplate(c.templates, m.item)
    requires forall w <- d.waivers :: OfPublishedTemplate(c.templates, w)
    requires !request.AddCandidates? && !request.CreateCheckRun?
    ensures var after := Serve(d, c, docs, today, request).0;
            && (forall m <- after.mappings :: OfPublishedTemplate(c.templates, m.item))
            && (forall w <- after.waivers :: OfPublishedTemplate(c.templates, w))
  {
  }

  lemma SameInputsKeepChecks(d: Dossier, after: Dossier, templates: seq<Template>)
    requires CheckCoherent(d, templates) && after.checkRuns == d.checkRuns
    requires EvidenceOf(after, templates) == EvidenceOf(d, templates)
    ensures forall i | 0 <= i < |after.checkRuns| && after.checkRuns[i].status.Current? ::
              CheckCached(after.checkRuns[i], after, templates)
  {
    forall i | 0 <= i < |after.checkRuns| && after.checkRuns[i].status.Current?
      ensures CheckCached(after.checkRuns[i], after, templates)
    {
      assert CheckCached(d.checkRuns[i], d, templates);
    }
  }

  /** Whoever leaves the completeness reports as they were has left what they read as it was. */
  lemma InputsUnchanged(d: Dossier, c: Catalog, docs: set<DocId>, today: Date, request: Request)
    requires !request.AddCandidates?
    requires Serve(d, c, docs, today, request).0.checkRuns == d.checkRuns
    requires exists i | 0 <= i < |d.checkRuns| :: d.checkRuns[i].status.Current?
    ensures EvidenceOf(Serve(d, c, docs, today, request).0, c.templates) == EvidenceOf(d, c.templates)
  {
  }

  // ---------------------------------------------------------------------------
  // The catalog changes under the reports
  // ---------------------------------------------------------------------------

  datatype CatalogRequest =
    | ForRules(rule: RuleRequest)
    | ForTemplates(template: TemplateRequest)
    | ImportLpr(entries: seq<LprEntry>)
    | PublishLpr(batch: nat)

  ghost function ServeCatalog(c: Catalog, request: CatalogRequest): Catalog {
    match request
    case ForRules(r) => c.(rules := ServeRule(c.rules, r))
    case ForTemplates(r) => c.(templates := ServeTemplate(c.templates, r).0)
    case ImportLpr(entries) => c.(lprBatches := c.lprBatches + [LprBatch(false, false, entries)])
    case PublishLpr(batch) =>
      if batch < |c.lprBatches| && !c.lprBatches[batch].published && c.lprBatches[batch].entries != []
      then c.(lprBatches := c.lprBatches[batch := c.lprBatches[batch].(published := true)]) else c
  }

  ghost predicate CatalogValid(c: Catalog) {
    Unambiguous(c.rules) && OnePublished(c.templates)
  }

  lemma ServeCatalogKeepsValid(c: Catalog, request: CatalogRequest)
    requires CatalogValid(c)
    ensures CatalogValid(ServeCatalog(c, request))
    ensures Frozen(c.rules, ServeCatalog(c, request).rules)
    ensures TemplatesFrozen(c.templates, ServeCatalog(c, request).templates)
    ensures forall row | PublishedRow(c.lprBatches, row) :: PublishedRow(ServeCatalog(c, request).lprBatches, row)
  {
    if request.ForRules? {
      ServeKeepsUnambiguous(c.rules, request.rule);
      ServeFreezes(c.rules, request.rule);
    } else if request.ForTemplates? {
      ServeTemplateKeeps(c.templates, request.template);
    }
  }

  /** No request of an administrator breaks what the stored reports rest on. */
  lemma CatalogKeepsReports(d: Dossier, c: Catalog, request: CatalogRequest)
    requires CatalogValid(c) && RedlineCoherent(d, c) && CheckCoherent(d, c.templates)
    ensures RedlineCoherent(d, ServeCatalog(c, request))
    ensures CheckCoherent(d, ServeCatalog(c, request).templates)
  {
    var after := ServeCatalog(c, request);
    ServeCatalogKeepsValid(c, request);
    SameEvidence(d, c.templates, after.templates);
    forall i | 0 <= i < |d.redlineRuns| && d.redlineRuns[i].status.Current?
      ensures RedlineCached(d.redlineRuns[i], d, after)
    {
      assert RedlineCached(d.redlineRuns[i], d, c);
    }
    forall i | 0 <= i < |d.checkRuns| && d.checkRuns[i].status.Current?
      ensures CheckCached(d.checkRuns[i], d, after.templates)
    {
      assert CheckCached(d.checkRuns[i], d, c.templates);
    }
  }

  /**
   * Retiring the template of a current report leaves it reported as not stale, although no template
   * applies any more; publishing a different one is what makes it stale.
   */
  lemma RetirementGoesUnnoticed(d: Dossier, c: Catalog, run: CheckRun)
    requires OnePublished(c.templates) && CheckCoherent(d, c.templates) && run in d.checkRuns
    requires run.status.Current? && Applicable(d, c) == Some(run.templateId)
    ensures var after := ServeCatalog(c, ForTemplates(RetireTemplate(run.templateId)));
            && Applicable(d, after).None?
            && !CheckIsStale(run, Applicable(d, after))
    ensures forall id: TemplateId :: CheckIsStale(run, Some(id)) <==> id != run.templateId
  {
    var templates := c.templates;
    var after := ServeTemplate(templates, RetireTemplate(run.templateId)).0;
    forall i | 0 <= i < |after| ensures !Applies(after[i], d.profile.product, d.profile.borrowerType) {
      if i != run.templateId && Applies(templates[i], d.profile.product, d.profile.borrowerType) {
        assert SameKey(templates[i], templates[run.templateId]);
      }
    }
  }

  lemma {:induction false} ReferencesDoNotMatch(before: seq<Rule>, after: seq<Rule>, scope: Scope, asOf: Date)
    requires |before| == |after|
    requires forall i | 0 <= i < |before| ::
               before[i] == after[i] || (before[i].kind.Reference? && after[i].kind.Reference?)
    ensures MatchingRules(before, scope, asOf) == MatchingRules(after, scope, asOf)
  {
    if before != [] {
      ReferencesDoNotMatch(before[..|before| - 1], after[..|after| - 1], scope, asOf);
    }
  }

  lemma SameSelectionSameStaleness(run: RedlineRun, d: Dossier, c: Catalog, rules: seq<Rule>, today: Date)
    requires SelectPrimaryRule(rules, c.qualification, d.context, d.profile.product, today)
          == SelectPrimaryRule(c.rules, c.qualification, d.context, d.profile.product, today)
    ensures RedlineIsStale(run, d, c.(rules := rules), today) <==> RedlineIsStale(run, d, c, today)
  {
  }

  lemma ReferenceRequestKeepsMatches(rules: seq<Rule>, id: RuleId, request: RuleRequest, scope: Scope, asOf: Date)
    requires id < |rules| && rules[id].kind.Reference?
    requires request == Approve(id) || request == Retire(id)
    ensures MatchingRules(ServeRule(rules, request), scope, asOf) == MatchingRules(rules, scope, asOf)
  {
    var after := ServeRule(rules, request);
    assert after == rules || (exists status :: after == rules[id := rules[id].(status := status)]);
    ReferencesDoNotMatch(rules, after, scope, asOf);
  }

  /** Approving or retiring a reference rule changes no report's staleness. */
  lemma ReferenceChangesGoUnnoticed(d: Dossier, c: Catalog, today: Date, id: RuleId, run: RedlineRun,
      request: RuleRequest)
    requires id < |c.rules| && c.rules[id].kind.Reference?
    requires request == Approve(id) || request == Retire(id)
    ensures RedlineIsStale(run, d, c.(rules := ServeRule(c.rules, request)), today)
        <==> RedlineIsStale(run, d, c, today)
  {
    var after := ServeRule(c.rules, request);
    if d.context.Some? {
      var scope := Scope(c.qualification, d.context.value, d.profile.product);
      ReferenceRequestKeepsMatches(c.rules, id, request, scope, today);
    }
    SameSelectionSameStaleness(run, d, c, after, today);
  }

  /**
   * What that does to a report: its references are the live ones exactly when the rules that apply as
   * references today are those it lists, and each listed LPR rule reads the LPR of today as it reads the
   * frozen one; they have the live verdicts exactly when each puts the confirmed rate on the same side. With
   * a signing date the second part holds by itself.
   */
  lemma ReferencesAgreeIff(d: Dossier, c: Catalog, today: Date, run: RedlineRun)
    requires RedlineCoherent(d, c) && run in d.redlineRuns && !RedlineIsStale(run, d, c, today)
    ensures var q, live := QueryOf(d, c, today), LiveRedline(d, c, today).references;
            var lpr := ValueOf(SelectLpr(LprRows(c), LprAsOf(q)));
            && (live == run.result.references <==>
                  SameList(c.rules, q, run) && ReferencesReadAlike(run, InputsOf(q.confirmed), lpr))
            && (VerdictsIn(live) == VerdictsIn(run.result.references) <==>
                  SameList(c.rules, q, run) && ReferencesOnOneSide(run, InputsOf(q.confirmed), lpr))
            && (d.profile.signingDate.Some? ==> ReferencesReadAlike(run, InputsOf(q.confirmed), lpr))
  {
    var n :| 0 <= n < |d.redlineRuns| && d.redlineRuns[n] == run;
    assert RedlineCached(run, d, c);
    SelectedRowIsPublished(c, run.result.lprAsOf);
    ReferencesFollowTheList(c.rules, QueryOf(d, c, today), run,
                            ValueOf(SelectLpr(LprRows(c), LprAsOf(QueryOf(d, c, today)))),
                            LiveRedline(d, c, today).references);
  }

  function VerdictsIn(refs: seq<(RuleId, Evaluation)>): (verdicts: seq<(RuleId, Option<Verdict>)>)
    ensures |verdicts| == |refs|
    ensures forall i | 0 <= i < |refs| :: verdicts[i] == (refs[i].0, VerdictIn(refs[i].1))
  {
    seq(|refs|, i requires 0 <= i < |refs| => (refs[i].0, VerdictIn(refs[i].1)))
  }

  ghost predicate SameList(rules: seq<Rule>, q: Query, run: RedlineRun) {
    forall id: RuleId | id < |rules| :: AppliesAsReference(rules[id], q) <==> Lists(run, id)
  }

  ghost predicate ReferencesReadAlike(run: RedlineRun, inputs: Inputs, lpr: Option<real>) {
    forall i | 0 <= i < |run.referenceSnapshots| ::
      SameReading(run.referenceSnapshots[i].formula, inputs, lpr, ValueOf(run.result.lpr))
  }

  ghost predicate ReferencesOnOneSide(run: RedlineRun, inputs: Inputs, lpr: Option<real>) {
    forall i | 0 <= i < |run.referenceSnapshots| ::
      SameSide(run.referenceSnapshots[i].formula, inputs, lpr, ValueOf(run.result.lpr))
  }

  function IdsOf(refs: seq<(RuleId, Evaluation)>): (ids: seq<RuleId>)
    ensures |ids| == |refs| && forall i | 0 <= i < |ids| :: ids[i] == refs[i].0
  {
    seq(|refs|, i requires 0 <= i < |refs| => refs[i].0)
  }

  ghost predicate Lists(run: RedlineRun, id: RuleId) {
    id in IdsOf(run.result.references)
  }

  ghost predicate Rising(ids: seq<RuleId>) {
    forall i, j | 0 <= i < j < |ids| :: ids[i] < ids[j]
  }

  lemma {:induction false} RisingListsAgree(a: seq<RuleId>, b: seq<RuleId>)
    requires Rising(a) && Rising(b)
    requires forall id :: id in a <==> id in b
    ensures a == b
  {
    assert (|a| > 0 ==> a[0] in b) && (|b| > 0 ==> b[0] in a);
    if a != [] && b != [] {
      var m, n := |a| - 1, |b| - 1;
      assert a[m] in b && b[n] in a;
      assert a[m] == b[n];
      assert forall id :: id in a[..m] <==> id in a && id != a[m];
      assert forall id :: id in b[..n] <==> id in b && id != b[n];
      RisingListsAgree(a[..m], b[..n]);
      assert a == a[..m] + [a[m]] && b == b[..n] + [b[n]];
    }
  }

  lemma LiveIds(rules: seq<Rule>, q: Query, lpr: Option<real>, live: seq<(RuleId, Evaluation)>)
    requires live == ReferenceEvaluations(rules, q, lpr)
    ensures Rising(IdsOf(live))
    ensures forall id: RuleId :: id in IdsOf(live) <==> id < |rules| && AppliesAsReference(rules[id], q)
  {
    ReferencesOnlyWarn(rules, q, lpr, live);
    forall id: RuleId | id < |rules| && AppliesAsReference(rules[id], q) ensures id in IdsOf(live) {
      EachReferenceIsEvaluated(rules, q, lpr, live, id);
      var i :| 0 <= i < |live| && live[i].0 == id;
      assert IdsOf(live)[i] == id;
    }
  }

  /** With the same list, the references are equal exactly when each reads the two LPR values alike. */
  lemma SameListSameReferences(
    rules: seq<Rule>, q: Query, run: RedlineRun, lpr: Option<real>, live: seq<(RuleId, Evaluation)>)
    requires ReferencesCached(run, rules) && q.confirmed == run.query.confirmed && q.growth == run.query.growth
    requires live == ReferenceEvaluations(rules, q, lpr) && IdsOf(live) == IdsOf(run.result.references)
    ensures live == run.result.references <==> ReferencesReadAlike(run, InputsOf(q.confirmed), lpr)
    ensures VerdictsIn(live) == VerdictsIn(run.result.references)
        <==> ReferencesOnOneSide(run, InputsOf(q.confirmed), lpr)
  {
    var refs, inputs := run.result.references, InputsOf(q.confirmed);
    ReferencesOnlyWarn(rules, q, lpr, live);
    forall i | 0 <= i < |refs|
      ensures live[i] == refs[i] <==> SameReading(run.referenceSnapshots[i].formula, inputs, lpr,
          ValueOf(run.result.lpr))
      ensures VerdictsIn(live)[i] == VerdictsIn(refs)[i] <==>
                SameSide(run.referenceSnapshots[i].formula, inputs, lpr, ValueOf(run.result.lpr))
    {
      assert IdsOf(live)[i] == IdsOf(refs)[i];
      assert refs[i].1 == Downgrade(EvaluationIn(q, run.referenceSnapshots[i].formula, ValueOf(run.result.lpr)));
      assert live[i].1 == Downgrade(EvaluationIn(q, run.referenceSnapshots[i].formula, lpr));
      SameEvaluationExactly(run.referenceSnapshots[i].formula, q, lpr, ValueOf(run.result.lpr));
    }
  }

  lemma ReferencesFollowTheList(
    rules: seq<Rule>, q: Query, run: RedlineRun, lpr: Option<real>, live: seq<(RuleId, Evaluation)>)
    requires ReferencesCached(run, rules) && q.confirmed == run.query.confirmed && q.growth == run.query.growth
    requires live == ReferenceEvaluations(rules, q, lpr)
    ensures live == run.result.references <==>
              SameList(rules, q, run) && ReferencesReadAlike(run, InputsOf(q.confirmed), lpr)
    ensures VerdictsIn(live) == VerdictsIn(run.result.references) <==>
              SameList(rules, q, run) && ReferencesOnOneSide(run, InputsOf(q.confirmed), lpr)
  {
    LiveIds(rules, q, lpr, live);
    if SameList(rules, q, run) {
      RisingListsAgree(IdsOf(live), IdsOf(run.result.references));
    }
    if VerdictsIn(live) == VerdictsIn(run.result.references) {
      assert forall i | 0 <= i < |live| :: VerdictsIn(live)[i].0 == IdsOf(live)[i] == IdsOf(run.result.references)[i];
    }
    if IdsOf(live) == IdsOf(run.result.references) {
      SameListSameReferences(rules, q, run, lpr, live);
    }
  }

  /** Approving a draft reference that applies today is such a change, and no report shows it. */
  lemma ApprovedReferenceIsMissed(d: Dossier, c: Catalog, today: Date, id: RuleId, run: RedlineRun)
    requires RedlineCoherent(d, c) && CatalogValid(c) && run in d.redlineRuns && !RedlineIsStale(run, d, c, today)
    requires id < |c.rules| && c.rules[id].status.Draft? && c.rules[id].kind.Reference?
    requires AppliesAsReference(c.rules[id].(status := Approved), QueryOf(d, c, today))
    ensures var after := ServeCatalog(c, ForRules(Approve(id)));
            !RedlineIsStale(run, d, after, today) && LiveRedline(d, after, today).references != run.result.references
  {
    var after := ServeCatalog(c, ForRules(Approve(id)));
    assert after == c.(rules := ServeRule(c.rules, Approve(id)));
    ReferenceChangesGoUnnoticed(d, c, today, id, run, Approve(id));
    MissingFromTheList(d, c, id, run);
    AfterApproval(d, c, after, today, id);
    ReferencesAgreeIff(d, after, today, run);
  }

  lemma MissingFromTheList(d: Dossier, c: Catalog, id: RuleId, run: RedlineRun)
    requires RedlineCoherent(d, c) && run in d.redlineRuns && run.status.Current?
    requires id < |c.rules| && c.rules[id].status.Draft?
    ensures !Lists(run, id)
  {
    var n :| 0 <= n < |d.redlineRuns| && d.redlineRuns[n] == run;
    assert RedlineCached(run, d, c);
  }

  lemma AfterApproval(d: Dossier, c: Catalog, after: Catalog, today: Date, id: RuleId)
    requires RedlineCoherent(d, c) && CatalogValid(c) && after == ServeCatalog(c, ForRules(Approve(id)))
    requires id < |c.rules| && c.rules[id].status.Draft? && c.rules[id].kind.Reference?
    ensures RedlineCoherent(d, after) && after.rules == c.rules[id := c.rules[id].(status := Approved)]
    ensures QueryOf(d, after, today) == QueryOf(d, c, today)
  {
    ServeCatalogKeepsValid(c, ForRules(Approve(id)));
    forall i | 0 <= i < |d.redlineRuns| && d.redlineRuns[i].status.Current?
      ensures RedlineCached(d.redlineRuns[i], d, after)
    {
      assert RedlineCached(d.redlineRuns[i], d, c);
    }
  }
}
