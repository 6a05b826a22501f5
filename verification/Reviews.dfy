/** How a review gets done: what completes it, what keeps it open, and that it can always be completed. */
module Reviews {
  import opened Changes
  import opened Checklists
  import opened Intake
  import JobQueue
  import JobStore
  import opened Lifecycle
  import opened QueueRuns
  import opened Redline
  import opened Reports
  import opened Requests
  import opened ReviewDesk
  import opened RuleCatalog
  import opened TemplateCatalog
  import Verdicts
  import Versions
  import opened Wrappers

  predicate NoJobIsLeft(q: JobQueue.Queue, app: AppId) {
    forall j <- q.jobs | JobQueue.Joined(q, j) && AppOf(q, j) == app ::
      q.jobs[j].status !in {JobQueue.Waiting, JobQueue.Running}
  }

  /** The newest redline report is current, its rule decides today, and its LPR, if read, is that of its day. */
  ghost predicate RedlineStands(d: Dossier, c: Catalog, today: Date) {
    && d.redlineRuns != []
    && var run := d.redlineRuns[|d.redlineRuns| - 1];
       && run.status == Current && !RuleDiffers(run, d, c, today)
       && (ReadsLpr(run) ==> forall lpr | Verdicts.IsLprOn(c, run.result.lprAsOf, lpr) :: !LprDiffers(run, lpr))
  }

  /** The newest completeness report is current, and no other template is published for the application. */
  ghost predicate ChecksStand(d: Dossier, c: Catalog) {
    && d.checkRuns != []
    && var run := d.checkRuns[|d.checkRuns| - 1];
       run.status == Current && forall id: TemplateId :: IsFor(d, c, id) ==> id == run.templateId
  }

  lemma StandingReports(d: Dossier, c: Catalog, today: Date)
    requires CatalogValid(c) && DossierGood(d, c)
    ensures RedlineReady(d, c, today) <==> RedlineStands(d, c, today)
    ensures ChecksReady(d, c) <==> ChecksStand(d, c)
  {
    if d.redlineRuns != [] {
      var run := d.redlineRuns[|d.redlineRuns| - 1];
      var lpr := SelectLpr(LprRows(c), run.result.lprAsOf);
      Verdicts.LprSays(c, run.result.lprAsOf, lpr);
      RedlineStaleExactly(run, d, c, today, lpr);
      forall other | Verdicts.IsLprOn(c, run.result.lprAsOf, other) ensures other == lpr {
        Verdicts.LprSays(c, run.result.lprAsOf, other);
      }
    }
    if d.checkRuns != [] {
      ChecksStaleExactly(d.checkRuns[|d.checkRuns| - 1], d, c);
    }
  }

  /** The application waits for review in the version named, no job of it is left, and both reports stand. */
  ghost predicate CanComplete(q: JobQueue.Queue, d: Dossier, c: Catalog, today: Date, app: AppId, version: nat) {
    && app in q.apps && q.apps[app].state == JobQueue.AwaitingReview && q.apps[app].version == version
    && NoJobIsLeft(q, app) && RedlineStands(d, c, today) && ChecksStand(d, c)
  }

  function Completed(q: JobQueue.Queue, app: AppId, now: JobQueue.Time): JobQueue.Queue
    requires app in q.apps
  {
    var life := q.apps[app];
    q.(apps := q.apps[app := JobQueue.Life(JobQueue.ReviewComplete, Some(now), life.archivedAt, life.version + 1)])
  }

  lemma CompletionOfOne(q: JobQueue.Queue, d: Dossier, c: Catalog, today: Date, app: AppId, version: nat,
                        now: JobQueue.Time)
    requires CatalogValid(c) && DossierGood(d, c)
    ensures RedlineReady(d, c, today) && ChecksReady(d, c) ==>
              Apply(q, CompleteApplication(app, version, now))
              == if CanComplete(q, d, c, today, app, version) then Completed(q, app, now) else q
    ensures !(RedlineReady(d, c, today) && ChecksReady(d, c)) ==> !CanComplete(q, d, c, today, app, version)
  {
    Versions.CompleteSays(q, app, version, now);
    StandingReports(d, c, today);
  }

  lemma GoodParts(w: World, app: AppId)
    requires Good(w)
    ensures CatalogValid(w.catalog) && (app in w.dossiers <==> app in w.holdings.q.apps)
    ensures app in w.dossiers ==> DossierGood(w.dossiers[app], w.catalog)
  {
  }

  /**
   * A review is completed exactly when the application waits for review in the version named, no job of it is
   * left, and both newest reports still stand; then it is complete, in the next version, and nothing else changes.
   */
  lemma CompletionSays(w: World, app: AppId, version: nat, now: JobQueue.Time)
    requires Good(w)
    ensures StepWorld(w, CompleteReview(app, version, now)) ==
              if app in w.dossiers
                  && CanComplete(w.holdings.q, w.dossiers[app], w.catalog, w.today, app, version)
              then WithQueue(w, Completed(w.holdings.q, app, now)) else w
  {
    GoodParts(w, app);
    if app in w.dossiers {
      CompletionOfOne(w.holdings.q, w.dossiers[app], w.catalog, w.today, app, version, now);
    }
    assert WithQueue(w, w.holdings.q) == w;
  }

  // ---------------------------------------------------------------------------
  // What keeps a review open
  // ---------------------------------------------------------------------------

  /** A request that changes what the redline report or the checklist reads. */
  predicate Unsettles(d: Dossier, r: Request) {
    (r.ConfirmContext? || r.CreateResolution? || ChecksReason(d, r).Some?) && !r.CreateCheckRun?
  }

  predicate IsOpen(w: World, app: AppId) {
    && app in w.dossiers && app in w.holdings.q.apps
    && w.holdings.q.apps[app].state in {JobQueue.Lifecycle.Draft, JobQueue.Processing, JobQueue.AwaitingReview}
  }

  predicate KeyIsNew(d: Dossier, e: Envelope, r: Request) {
    OperationOf(r).Some? ==> KeyFor(e, OperationOf(r).value) !in d.receipts
  }

  lemma UnsettledReportsFall(d: Dossier, c: Catalog, docs: set<DocId>, today: Date, r: Request, served: Dossier,
                             after: Dossier)
    requires Unsettles(d, r) && (served, Accepted) == Serve(d, c, docs, today, r)
    requires after == served.(receipts := after.receipts)
    ensures !RedlineStands(after, c, today) || !ChecksStand(after, c)
  {
    ReportsSay(d, c, docs, today, r, served);
  }

  lemma AskedStaysGood(w: World, app: AppId, e: Envelope, r: Request)
    requires Good(w) && IsOpen(w, app) && CanStep(w, Ask(app, e, r))
    ensures Good(StepWorld(w, Ask(app, e, r)))
  {
    SubmittedKeepsGood(w, app, e, r);
  }

  lemma AskedIsSubmitted(w: World, app: AppId, e: Envelope, r: Request, next: World)
    requires IsOpen(w, app) && CanStep(w, Ask(app, e, r)) && next == StepWorld(w, Ask(app, e, r))
    ensures app in next.dossiers && next == w.(dossiers := w.dossiers[app := next.dossiers[app]])
    ensures next.dossiers[app] == Submit(w.dossiers[app], w.catalog, Documents(w, app), w.today,
                                         w.holdings.q.apps[app].state, e, r).0
  {
  }

  /** A request served under a new key, or without one, leaves at most its record besides. */
  lemma SubmittedIsServed(d: Dossier, c: Catalog, docs: set<DocId>, today: Date, state: JobQueue.Lifecycle, e: Envelope,
                          r: Request, served: Dossier, after: Dossier)
    requires !AddsNothing(d, r) && KeyIsNew(d, e, r)
    requires state in {JobQueue.Lifecycle.Draft, JobQueue.Processing, JobQueue.AwaitingReview}
    requires (served, Accepted) == Serve(d, c, docs, today, r)
    requires after == Submit(d, c, docs, today, state, e, r).0
    ensures after == served.(receipts := after.receipts)
    ensures forall k <- after.receipts :: k in d.receipts || Some(k.operation) == OperationOf(r)
  {
    SubmitSays(d, c, docs, today, state, e, r, served, Accepted, after, Submit(d, c, docs, today, state, e, r).1);
    RowsSay(d, c, docs, today, r, served);
  }

  lemma UnsettledCannotComplete(q: JobQueue.Queue, d: Dossier, c: Catalog, docs: set<DocId>, today: Date, app: AppId,
                                version: nat, e: Envelope, r: Request, served: Dossier, after: Dossier)
    requires app in q.apps && KeyIsNew(d, e, r) && Unsettles(d, r)
    requires q.apps[app].state in {JobQueue.Lifecycle.Draft, JobQueue.Processing, JobQueue.AwaitingReview}
    requires (served, Accepted) == Serve(d, c, docs, today, r)
    requires after == Submit(d, c, docs, today, q.apps[app].state, e, r).0
    ensures !CanComplete(q, after, c, today, app, version)
  {
    SubmittedIsServed(d, c, docs, today, q.apps[app].state, e, r, served, after);
    UnsettledReportsFall(d, c, docs, today, r, served, after);
  }

  /** A served change of what a report reads keeps the review open until that report is made again. */
  lemma ChangeKeepsReviewOpen(w: World, app: AppId, e: Envelope, r: Request, version: nat, now: JobQueue.Time,
                              served: Dossier, next: World)
    requires Good(w) && IsOpen(w, app) && CanStep(w, Ask(app, e, r)) && KeyIsNew(w.dossiers[app], e, r)
    requires (served, Accepted) == Serve(w.dossiers[app], w.catalog, Documents(w, app), w.today, r)
    requires Unsettles(w.dossiers[app], r) && next == StepWorld(w, Ask(app, e, r))
    ensures StepWorld(next, CompleteReview(app, version, now)) == next
  {
    AskedIsSubmitted(w, app, e, r, next);
    UnsettledCannotComplete(w.holdings.q, w.dossiers[app], w.catalog, Documents(w, app), w.today, app, version, e, r,
                            served, next.dossiers[app]);
    AskedStaysGood(w, app, e, r);
    CompletionSays(next, app, version, now);
  }

  // ---------------------------------------------------------------------------
  // A review can be completed
  // ---------------------------------------------------------------------------

  /** Nothing keeps either report from being made: see the statements about the two requests. */
  ghost predicate ReportsCanBeMade(d: Dossier, c: Catalog, today: Date) {
    && !Verdicts.CannotBeEvaluated(LiveRedline(d, c, today)) && !Verdicts.DemoRuleCounts(d, c, today)
    && (exists id: TemplateId :: IsFor(d, c, id) && !(c.production && c.templates[id].demoOnly))
    && !TwoMappings(d, c.templates) && !TwoWaivers(d, c.templates)
  }

  /** The redline report is made, and stands. */
  lemma RedlineReportStands(d: Dossier, c: Catalog, docs: set<DocId>, today: Date, served: Dossier, outcome: Outcome)
    requires CatalogValid(c) && ReportsCanBeMade(d, c, today)
    requires (served, outcome) == Serve(d, c, docs, today, CreateRedlineRun)
    ensures outcome.Accepted? && served == d.(redlineRuns := served.redlineRuns)
    ensures RedlineStands(served, c, today)
  {
    var lpr := SelectLpr(LprRows(c), Verdicts.LprDay(d, today));
    Verdicts.LprSays(c, Verdicts.LprDay(d, today), lpr);
    Verdicts.ReportSays(d, c, docs, today, lpr);
    NewRedlineStands(d, c, today, lpr, served);
  }

  lemma NewRedlineStands(d: Dossier, c: Catalog, today: Date, lpr: Option<LprRow>, after: Dossier)
    requires Verdicts.IsLprOn(c, Verdicts.LprDay(d, today), lpr)
    requires after == d.(redlineRuns := after.redlineRuns) && after.redlineRuns != []
    requires Verdicts.Freezes(after.redlineRuns[|after.redlineRuns| - 1], d, c, today, lpr)
    ensures RedlineStands(after, c, today)
  {
    var run := after.redlineRuns[|after.redlineRuns| - 1];
    SameProfile(d, after, c, today);
    forall other | Verdicts.IsLprOn(c, run.result.lprAsOf, other) ensures !LprDiffers(run, other) {
      Verdicts.OneLprOn(c, run.result.lprAsOf, other, lpr);
    }
  }

  lemma SameProfile(d: Dossier, after: Dossier, c: Catalog, today: Date)
    requires after.profile == d.profile && after.context == d.context
    ensures forall id: RuleId :: Verdicts.Decides(after, c, today, id) <==> Verdicts.Decides(d, c, today, id)
    ensures forall id: RuleId :: Verdicts.Warns(after, c, today, id) <==> Verdicts.Warns(d, c, today, id)
    ensures forall id: TemplateId :: IsFor(after, c, id) <==> IsFor(d, c, id)
  {
  }

  /** So is the completeness report. */
  lemma ChecksReportStands(d: Dossier, c: Catalog, docs: set<DocId>, today: Date, served: Dossier, outcome: Outcome)
    requires CatalogValid(c) && ReportsCanBeMade(d, c, today)
    requires (served, outcome) == Serve(d, c, docs, today, CreateCheckRun)
    ensures outcome.Accepted? && served == d.(checkRuns := served.checkRuns)
    ensures ChecksStand(served, c)
  {
    var id: TemplateId :| IsFor(d, c, id) && !(c.production && c.templates[id].demoOnly);
    ApplicableSays(d, c, id);
    ChecklistReportExactly(d, c, docs, today);
    ChecklistSays(d, c, docs, today);
    SameProfile(d, served, c, today);
    forall other: TemplateId | IsFor(d, c, other) ensures other == id {
      ApplicableSays(d, c, other);
    }
  }

  lemma StillCanBeMade(d: Dossier, after: Dossier, c: Catalog, today: Date)
    requires ReportsCanBeMade(d, c, today)
    requires after == d.(redlineRuns := after.redlineRuns, receipts := after.receipts)
    ensures ReportsCanBeMade(after, c, today)
  {
    SameProfile(d, after, c, today);
    assert QueryOf(after, c, today) == QueryOf(d, c, today);
  }

  lemma StillStands(d: Dossier, after: Dossier, c: Catalog, today: Date)
    requires after == d.(checkRuns := after.checkRuns, receipts := after.receipts)
    ensures RedlineStands(d, c, today) ==> RedlineStands(after, c, today)
    ensures after.checkRuns == d.checkRuns && ChecksStand(d, c) ==> ChecksStand(after, c)
  {
    SameProfile(d, after, c, today);
  }

  lemma FirstReport(d: Dossier, c: Catalog, docs: set<DocId>, today: Date, state: JobQueue.Lifecycle, e: Envelope,
                    after: Dossier)
    requires CatalogValid(c) && ReportsCanBeMade(d, c, today) && KeyIsNew(d, e, CreateRedlineRun)
    requires state in {JobQueue.Lifecycle.Draft, JobQueue.Processing, JobQueue.AwaitingReview}
    requires after == Submit(d, c, docs, today, state, e, CreateRedlineRun).0
    ensures after == d.(redlineRuns := after.redlineRuns, receipts := after.receipts)
    ensures RedlineStands(after, c, today) && ReportsCanBeMade(after, c, today)
    ensures forall k <- after.receipts :: k in d.receipts || k.operation == ReportingRedline
  {
    var (served, outcome) := Serve(d, c, docs, today, CreateRedlineRun);
    RedlineReportStands(d, c, docs, today, served, outcome);
    SubmittedIsServed(d, c, docs, today, state, e, CreateRedlineRun, served, after);
    StillCanBeMade(d, after, c, today);
    StillStands(served, after, c, today);
  }

  lemma SecondReport(d: Dossier, c: Catalog, docs: set<DocId>, today: Date, state: JobQueue.Lifecycle, e: Envelope,
                     after: Dossier)
    requires CatalogValid(c) && ReportsCanBeMade(d, c, today) && KeyIsNew(d, e, CreateCheckRun)
    requires RedlineStands(d, c, today)
    requires state in {JobQueue.Lifecycle.Draft, JobQueue.Processing, JobQueue.AwaitingReview}
    requires after == Submit(d, c, docs, today, state, e, CreateCheckRun).0
    ensures RedlineStands(after, c, today) && ChecksStand(after, c)
  {
    var (served, outcome) := Serve(d, c, docs, today, CreateCheckRun);
    ChecksReportStands(d, c, docs, today, served, outcome);
    SubmittedIsServed(d, c, docs, today, state, e, CreateCheckRun, served, after);
    StillStands(d, after, c, today);
    StillStands(served, after, c, today);
  }

  /** Both reports, made one after the other under new keys, stand. */
  lemma BothReportsStand(w: World, app: AppId, first: Envelope, second: Envelope, next: World, reported: World)
    requires CatalogValid(w.catalog) && IsOpen(w, app) && ReportsCanBeMade(w.dossiers[app], w.catalog, w.today)
    requires KeyIsNew(w.dossiers[app], first, CreateRedlineRun) && KeyIsNew(w.dossiers[app], second, CreateCheckRun)
    requires next == StepWorld(w, Ask(app, first, CreateRedlineRun))
    requires reported == StepWorld(next, Ask(app, second, CreateCheckRun))
    ensures IsOpen(next, app) && app in reported.dossiers && reported.holdings == w.holdings
    ensures reported.catalog == w.catalog && reported.today == w.today
    ensures RedlineStands(reported.dossiers[app], w.catalog, w.today) && ChecksStand(reported.dossiers[app], w.catalog)
  {
    var c, docs, today, state := w.catalog, Documents(w, app), w.today, w.holdings.q.apps[app].state;
    AskedIsSubmitted(w, app, first, CreateRedlineRun, next);
    FirstReport(w.dossiers[app], c, docs, today, state, first, next.dossiers[app]);
    AskedIsSubmitted(next, app, second, CreateCheckRun, reported);
    SecondReport(next.dossiers[app], c, docs, today, state, second, reported.dossiers[app]);
  }

  /**
   * An application that waits for review without a job left can always be completed: by making both reports, under
   * new keys, on one day. Only what keeps a report from being made keeps it from completion.
   */
  lemma ReviewCanBeCompleted(
    w: World, app: AppId, first: Envelope, second: Envelope, version: nat, now: JobQueue.Time, next: World,
    reported: World)
    requires Good(w) && IsOpen(w, app) && NoJobIsLeft(w.holdings.q, app)
    requires w.holdings.q.apps[app].state == JobQueue.AwaitingReview && w.holdings.q.apps[app].version == version
    requires ReportsCanBeMade(w.dossiers[app], w.catalog, w.today)
    requires KeyIsNew(w.dossiers[app], first, CreateRedlineRun) && KeyIsNew(w.dossiers[app], second, CreateCheckRun)
    requires next == StepWorld(w, Ask(app, first, CreateRedlineRun))
    requires reported == StepWorld(next, Ask(app, second, CreateCheckRun))
    ensures StepWorld(reported, CompleteReview(app, version, now)) ==
              WithQueue(reported, Completed(w.holdings.q, app, now))
  {
    GoodParts(w, app);
    BothReportsStand(w, app, first, second, next, reported);
    AskedStaysGood(w, app, first, CreateRedlineRun);
    AskedStaysGood(next, app, second, CreateCheckRun);
    CompletionSays(reported, app, version, now);
  }

  // ---------------------------------------------------------------------------
  // What else a step of the deployment changes
  // ---------------------------------------------------------------------------

  lemma EditedDossier(d: Dossier, c: Catalog, docs: set<DocId>, today: Date, edit: Profile, after: Dossier)
    requires after == Serve(d, c, docs, today, UpdateProfile(edit)).0
    ensures after == d.(profile := edit, redlineRuns := after.redlineRuns)
    ensures RedlinesBecome(d.redlineRuns, after.redlineRuns, Some(ApplicationChange))
    ensures |after.redlineRuns| == |d.redlineRuns|
  {
    ReportsSay(d, c, docs, today, UpdateProfile(edit), after);
  }

  /** An edit of the profile is compare-and-set: it replaces the profile, in the next version, or changes nothing. */
  lemma EditSays(w: World, app: AppId, version: nat, edit: Profile, after: World)
    requires after == StepWorld(w, UpdateApplication(app, version, edit))
    ensures !(IsOpen(w, app) && w.holdings.q.apps[app].version == version) ==> after == w
    ensures IsOpen(w, app) && w.holdings.q.apps[app].version == version ==>
              && app in after.dossiers && after.dossiers == w.dossiers[app := after.dossiers[app]]
              && after.dossiers[app] == w.dossiers[app].(
                   profile := edit, redlineRuns := after.dossiers[app].redlineRuns)
              && RedlinesBecome(w.dossiers[app].redlineRuns, after.dossiers[app].redlineRuns, Some(ApplicationChange))
              && after == w.(dossiers := after.dossiers, holdings := w.holdings.(q := after.holdings.q))
              && Versions.OnlyRow(w.holdings.q, after.holdings.q, app,
                                  w.holdings.q.apps[app].(version := version + 1))
  {
    if IsOpen(w, app) && w.holdings.q.apps[app].version == version {
      Versions.CreateAndTouchSay(w.holdings.q, app, version);
      EditedDossier(w.dossiers[app], w.catalog, Documents(w, app), w.today, edit, after.dossiers[app]);
    }
  }

  /** Only a new day changes the day, only an administrator the catalog, and only these three the queue. */
  lemma StepsSay(w: World, s: WorldStep, after: World)
    requires CanStep(w, s) && after == StepWorld(w, s)
    ensures after.limits == w.limits && after.today == if s.NewDay? then s.day else w.today
    ensures after.catalog == if s.Admin? then ServeCatalog(w.catalog, s.request) else w.catalog
    ensures s.AskRetry? ==>
              (after.holdings.q, after.retryKeys)
              == (JobStore.SubmitRetry(w.holdings.q, w.retryKeys, s.j, s.envelope, s.chosen).0,
                  JobStore.SubmitRetry(w.holdings.q, w.retryKeys, s.j, s.envelope, s.chosen).1)
    ensures !s.AskRetry? ==> after.retryKeys == w.retryKeys
    ensures s.Handle? ==> after.holdings == Next(w.holdings, w.limits, s.step)
    ensures s.Admin? || s.NewDay? || s.Ask? || s.Classify? ==> after.holdings == w.holdings
    ensures forall app <- w.dossiers | !(s.Handle? && s.step.HardDelete? && s.step.app == app) :: app in after.dossiers
    ensures s.Handle? && s.step.HardDelete? ==> s.step.app !in after.dossiers
    ensures s.Open? && s.app !in w.dossiers && s.app !in w.holdings.q.apps ==>
              && s.app in after.dossiers && after.dossiers[s.app] == Dossier(
                   s.profile, [], None, map[], map[], {}, {}, [], [], [], map[])
              && s.app in after.holdings.q.apps
              && after.holdings.q.apps[s.app] == JobQueue.Life(JobQueue.Lifecycle.Draft, None, None, 1)
    ensures s.Classify? && s.app in w.dossiers ==>
              s.app in after.dossiers
              && after.dossiers[s.app] == Serve(w.dossiers[s.app], w.catalog, Documents(w, s.app), w.today,
                                                AddCandidates(s.doc, s.found)).0
  {
  }
}
