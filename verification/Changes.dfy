/** What each request of a loan officer changes, row by row, and which reports that makes stale. */
module Changes {
  import opened Checklists
  import opened Completeness
  import JobQueue
  import opened Redline
  import opened Reports
  import opened Requests
  import opened ReviewDesk
  import opened RuleCatalog
  import opened TemplateCatalog
  import Verdicts
  import opened Wrappers

  // ---------------------------------------------------------------------------
  // The rows
  // ---------------------------------------------------------------------------

  /** Why a redline report that was current is not any more. */
  function RedlineReason(r: Request): Option<StaleReason> {
    match r
    case UpdateProfile(_) => Some(ApplicationChange)
    case ConfirmContext(_) => Some(RuleContextChange)
    case CreateResolution(_, _) => Some(CriticalInputChange)
    case CreateRedlineRun => Some(NewRun)
    case _ => None
  }

  /** The same for a completeness report; what is there already changes nothing. */
  function ChecksReason(d: Dossier, r: Request): Option<StaleReason> {
    match r
    case CreateResolution(_, _) => Some(ConditionContextChange)
    case ConfirmCategory(_, _) => Some(ClassificationChange)
    case CreateMapping(doc, item) => if Mapping(doc, item) in d.mappings then None else Some(MappingChange)
    case DeleteMapping(_) => Some(MappingChange)
    case CreateWaiver(item) => if item in d.waivers then None else Some(WaiverChange)
    case CreateReview(_, _, _) => Some(EvidenceReviewChange)
    case CreateCheckRun => Some(NewRun)
    case _ => None
  }

  ghost predicate RedlinesBecome(before: seq<RedlineRun>, after: seq<RedlineRun>, reason: Option<StaleReason>) {
    |before| <= |after|
    && forall n | 0 <= n < |before| ::
         after[n] == if before[n].status == Current && reason.Some?
                     then before[n].(status := Stale, staleReason := reason) else before[n]
  }

  ghost predicate ChecksBecome(before: seq<CheckRun>, after: seq<CheckRun>, reason: Option<StaleReason>) {
    |before| <= |after|
    && forall n | 0 <= n < |before| ::
         after[n] == if before[n].status == Current && reason.Some?
                     then before[n].(status := Stale, staleReason := reason) else before[n]
  }

  predicate IsCandidate(d: Dossier, doc: DocId, category: Category) {
    doc in d.candidates && category in d.candidates[doc]
  }

  /** The rows after an accepted request, table by table: each table is changed by its own requests only. */
  lemma RowsSay(d: Dossier, c: Catalog, docs: set<DocId>, today: Date, r: Request, after: Dossier)
    requires (after, Accepted) == Serve(d, c, docs, today, r)
    ensures after.profile == if r.UpdateProfile? then r.profile else d.profile
    ensures after.context == if r.ConfirmContext? then Some(r.context) else d.context
    ensures after.resolutions == d.resolutions + if r.CreateResolution? then [r.resolution] else []
    ensures after.reviews == d.reviews + if r.CreateReview? then [r.review] else []
    ensures after.receipts == d.receipts
  {
  }

  lemma EvidenceRowsSay(d: Dossier, c: Catalog, docs: set<DocId>, today: Date, r: Request, after: Dossier)
    requires (after, Accepted) == Serve(d, c, docs, today, r)
    ensures after.categories == if r.ConfirmCategory? then d.categories[r.doc := r.category] else d.categories
    ensures after.mappings == d.mappings + (if r.CreateMapping? then {Mapping(r.doc, r.item)} else {})
                              - (if r.DeleteMapping? then {r.mapping} else {})
    ensures after.waivers == d.waivers + if r.CreateWaiver? then {r.item} else {}
  {
  }

  lemma CandidatesSay(d: Dossier, c: Catalog, docs: set<DocId>, today: Date, r: Request, after: Dossier)
    requires (after, Accepted) == Serve(d, c, docs, today, r)
    ensures forall doc, category :: IsCandidate(after, doc, category) <==>
              IsCandidate(d, doc, category) || (r.AddCandidates? && doc == r.doc && category in r.found)
  {
    if r.AddCandidates? {
      CandidatesGrow(d.candidates, r.doc, r.found);
      forall doc, category
        ensures IsCandidate(after, doc, category) <==> category in Candidates(after.candidates, doc)
        ensures IsCandidate(d, doc, category) <==> category in Candidates(d.candidates, doc)
      {
      }
    }
  }

  /** And the reports: each kind becomes stale for its own reasons only, and only a report adds one of its kind. */
  lemma ReportsSay(d: Dossier, c: Catalog, docs: set<DocId>, today: Date, r: Request, after: Dossier)
    requires (after, Accepted) == Serve(d, c, docs, today, r)
    ensures RedlinesBecome(d.redlineRuns, after.redlineRuns, RedlineReason(r))
    ensures ChecksBecome(d.checkRuns, after.checkRuns, ChecksReason(d, r))
    ensures |after.redlineRuns| == |d.redlineRuns| + if r.CreateRedlineRun? then 1 else 0
    ensures |after.checkRuns| == |d.checkRuns| + if r.CreateCheckRun? then 1 else 0
  {
  }

  /** An item of the template that is published for the application. */
  predicate IsItemFor(d: Dossier, c: Catalog, item: ItemId) {
    IsFor(d, c, item.template) && item.index < |c.templates[item.template].items|
  }

  /** Which requests are refused, and how; a refused one changes nothing. The two reports are dealt with elsewhere. */
  lemma OutcomeSays(d: Dossier, c: Catalog, docs: set<DocId>, today: Date, r: Request)
    requires OnePublished(c.templates) && !r.CreateRedlineRun? && !r.CreateCheckRun?
    ensures var (after, outcome) := Serve(d, c, docs, today, r);
            && (!outcome.Accepted? ==> after == d)
            && match r
               case UpdateProfile(_) => outcome.Accepted?
               case ConfirmContext(_) => outcome.Accepted?
               case CreateResolution(_, checked) => outcome == checked
               case ConfirmCategory(doc, _) => outcome == if doc in docs then Accepted else Unprocessable
               case CreateMapping(doc, item) =>
                 outcome == (if forall id: TemplateId :: !IsFor(d, c, id) then Conflict
                             else if doc in docs && IsItemFor(d, c, item) then Accepted else Unprocessable)
               case DeleteMapping(mapping) => outcome == if mapping in d.mappings then Accepted else NotFound
               case CreateWaiver(item) =>
                 outcome == (if forall id: TemplateId :: !IsFor(d, c, id) then Conflict
                             else if IsItemFor(d, c, item) then Accepted else Unprocessable)
               case CreateReview(review, _, seal) =>
                 outcome == (if review.doc !in docs then NotFound
                             else if seal == (if review.kind == SealPresence then SealOfOutput else NoSeal)
                             then Accepted else Unprocessable)
               case AddCandidates(doc, _) => outcome == if doc in docs then Accepted else NotFound
               case _ => true
  {
    forall id: TemplateId ensures IsFor(d, c, id) <==> Applicable(d, c) == Some(id) {
      ApplicableSays(d, c, id);
    }
  }

  // ---------------------------------------------------------------------------
  // Behind the guard and the key
  // ---------------------------------------------------------------------------

  /** What a request meets before its idempotency key is looked at. */
  predicate RefusedEarly(r: Request, outcome: Outcome) {
    && !outcome.Accepted? && !r.CreateResolution?
    && !(r.CreateReview? && outcome.Unprocessable?) && !(r.CreateCheckRun? && outcome.ServerError?)
  }

  predicate TakesKey(r: Request) { !r.UpdateProfile? && !r.DeleteMapping? && !r.AddCandidates? }

  /**
   * A request on an application under review or archived is refused. Otherwise one without a key, or with a new
   * one, is served; a new key is recorded unless the request was refused or had nothing to add. A known key
   * changes nothing: with another hash it is a conflict.
   */
  lemma SubmitSays(d: Dossier, c: Catalog, docs: set<DocId>, today: Date, state: JobQueue.Lifecycle, e: Envelope,
                   r: Request, served: Dossier, outcome: Outcome, after: Dossier, answer: Outcome)
    requires (served, outcome) == Serve(d, c, docs, today, r)
    requires (after, answer) == Submit(d, c, docs, today, state, e, r)
    requires !(r.CreateReview? && r.review.doc !in docs)
    ensures state in {JobQueue.ReviewComplete, JobQueue.Archived} ==> after == d && answer == Conflict
    ensures state in {JobQueue.Lifecycle.Draft, JobQueue.Processing, JobQueue.AwaitingReview} ==>
              if !TakesKey(r) then (after, answer) == (served, outcome)
              else if RefusedEarly(r, outcome) then (after, answer) == (d, outcome)
              else
                && OperationOf(r).Some?
                && var k := KeyFor(e, OperationOf(r).value);
                   if k in d.receipts then
                     && after == d
                     && (answer == Conflict <==> d.receipts[k].requestHash != e.requestHash)
                     && (answer == ServerError <==>
                           && d.receipts[k].requestHash == e.requestHash && r.CreateMapping?
                           && Mapping(r.doc, r.item) !in d.mappings
                           && (d.receipts[k].resource.None? || d.receipts[k].resource.value !in d.mappings))
                     && answer in {Accepted, Conflict, ServerError}
                   else
                     && answer == outcome
                     && after == (if !outcome.Accepted? || AddsNothing(d, r) then d
                                  else served.(receipts := d.receipts[k := IdemRecord(e.requestHash, MadeBy(r))]))
  {
  }

  predicate AddsNothing(d: Dossier, r: Request) {
    (r.CreateMapping? && Mapping(r.doc, r.item) in d.mappings) || (r.CreateWaiver? && r.item in d.waivers)
  }

  function MadeBy(r: Request): Option<Mapping> {
    if r.CreateMapping? then Some(Mapping(r.doc, r.item)) else None
  }

  /** Each kind of request has its own keys: those of categories and reviews also tell apart what they are about. */
  lemma OperationsDiffer(a: Request, b: Request)
    requires TakesKey(a) && TakesKey(b) && OperationOf(a) == OperationOf(b)
    ensures a.ConfirmContext? == b.ConfirmContext? && a.CreateResolution? == b.CreateResolution?
    ensures a.ConfirmCategory? == b.ConfirmCategory? && (a.ConfirmCategory? ==> a.doc == b.doc)
    ensures a.CreateMapping? == b.CreateMapping? && a.CreateWaiver? == b.CreateWaiver?
    ensures a.CreateReview? == b.CreateReview? && (a.CreateReview? ==> a.output == b.output)
    ensures a.CreateRedlineRun? == b.CreateRedlineRun? && a.CreateCheckRun? == b.CreateCheckRun?
  {
  }

  // ---------------------------------------------------------------------------
  // When a report is reported stale
  // ---------------------------------------------------------------------------

  /** The rule of the run or one of its references is a multiple of the LPR. */
  predicate ReadsLpr(run: RedlineRun) {
    || (run.ruleSnapshot.Some? && run.ruleSnapshot.value.formula.LprMultipleLimit?)
    || exists rule <- run.referenceSnapshots :: rule.formula.LprMultipleLimit?
  }

  /** Today another rule decides than the one of the run, or none does. */
  ghost predicate RuleDiffers(run: RedlineRun, d: Dossier, c: Catalog, today: Date) {
    !forall id: RuleId :: run.ruleId == Some(id) <==> Verdicts.Decides(d, c, today, id)
  }

  predicate LprDiffers(run: RedlineRun, lpr: Option<LprRow>) {
    match lpr
    case Some(row) => run.result.lpr.None? || run.result.lpr.value.id != row.id
    case None => run.result.lpr.Some?
  }

  lemma RuleDiffersSays(run: RedlineRun, d: Dossier, c: Catalog, today: Date)
    requires Unambiguous(c.rules)
    ensures RuleDiffers(run, d, c, today) <==>
              run.ruleId != SelectPrimaryRule(c.rules, c.qualification, d.context, d.profile.product, today).rule
  {
    Verdicts.SelectionSays(d, c, today);
    var now := LiveRedline(d, c, today).selection.rule;
    if run.ruleId != now {
      var id := if run.ruleId.Some? then run.ruleId.value else now.value;
      assert !(run.ruleId == Some(id) <==> Verdicts.Decides(d, c, today, id));
    }
  }

  lemma ReadsLprSays(run: RedlineRun)
    ensures ReadsLpr(run) <==> UsesLpr(run)
  {
    if i :| 0 <= i < |run.referenceSnapshots| && run.referenceSnapshots[i].formula.LprMultipleLimit? {
      assert run.referenceSnapshots[i] in run.referenceSnapshots;
    }
  }

  /**
   * A redline report is reported stale exactly when it is stored as stale, another rule decides today, or it reads
   * the LPR and the row for its day is another one; and for that reason. So nothing else makes it stale.
   */
  lemma RedlineStaleExactly(run: RedlineRun, d: Dossier, c: Catalog, today: Date, lpr: Option<LprRow>)
    requires Unambiguous(c.rules) && Verdicts.IsLprOn(c, run.result.lprAsOf, lpr)
    requires run.status.Stale? <==> run.staleReason.Some?
    ensures RedlineIsStale(run, d, c, today) <==>
              run.status.Stale? || RuleDiffers(run, d, c, today) || (ReadsLpr(run) && LprDiffers(run, lpr))
    ensures RedlineStaleReason(run, d, c, today) ==
              (if run.status.Stale? then run.staleReason
               else if RuleDiffers(run, d, c, today) then Some(RuleChanged)
               else if ReadsLpr(run) && LprDiffers(run, lpr) then Some(LprChanged) else None)
  {
    Verdicts.LprSays(c, run.result.lprAsOf, lpr);
    RuleDiffersSays(run, d, c, today);
    ReadsLprSays(run);
  }

  /** A completeness report: stored as stale, or another template is published for the application. */
  lemma ChecksStaleExactly(run: CheckRun, d: Dossier, c: Catalog)
    requires OnePublished(c.templates)
    ensures CheckIsStale(run, Applicable(d, c)) <==>
              run.status.Stale? || exists id: TemplateId :: IsFor(d, c, id) && id != run.templateId
  {
    forall id: TemplateId ensures IsFor(d, c, id) <==> Applicable(d, c) == Some(id) {
      ApplicableSays(d, c, id);
    }
    if Applicable(d, c).Some? {
      assert IsFor(d, c, Applicable(d, c).value);
    }
  }
}
