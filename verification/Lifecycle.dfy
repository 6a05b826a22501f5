/** The whole deployment: queue, uploads, review inputs and catalog, and the lifecycle that ties them together. */
module Lifecycle {
  import opened Intake
  import JobQueue
  import JobStore
  import opened QueueRuns
  import opened Reports
  import opened Requests
  import opened ReviewDesk
  import opened RuleCatalog
  import opened TemplateCatalog
  import opened Wrappers

  datatype World = World(
    holdings: Holdings, dossiers: map<AppId, Dossier>, retryKeys: JobStore.RetryKeys,
    catalog: Catalog, limits: Limits, today: Date)

  // ---------------------------------------------------------------------------
  // Completion
  // ---------------------------------------------------------------------------

  datatype Blocker =
    | RunningJobs
    | MissingRedlineReport | StaleRedlineReport
    | MissingCompletenessReport | StaleCompletenessReport

  predicate RedlineReady(d: Dossier, c: Catalog, today: Date) {
    d.redlineRuns != [] && !RedlineIsStale(d.redlineRuns[|d.redlineRuns| - 1], d, c, today)
  }

  predicate ChecksReady(d: Dossier, c: Catalog) {
    d.checkRuns != [] && !CheckIsStale(d.checkRuns[|d.checkRuns| - 1], Applicable(d, c))
  }

  /** Nothing blocks completion exactly when no job is active and both newest reports are there and not stale. */
  method CompletionBlockers(q: JobQueue.Queue, app: AppId, d: Dossier, c: Catalog, today: Date)
    returns (blockers: seq<Blocker>)
    ensures blockers == [] <==> !JobQueue.HasActiveJobs(q, app) && RedlineReady(d, c, today) && ChecksReady(d, c)
    ensures RunningJobs in blockers <==> JobQueue.HasActiveJobs(q, app)
    ensures MissingRedlineReport in blockers <==> d.redlineRuns == []
    ensures StaleRedlineReport in blockers <==> d.redlineRuns != [] && !RedlineReady(d, c, today)
    ensures MissingCompletenessReport in blockers <==> d.checkRuns == []
    ensures StaleCompletenessReport in blockers <==> d.checkRuns != [] && !ChecksReady(d, c)
  {
    blockers := [];
    if JobQueue.HasActiveJobs(q, app) {
      blockers := blockers + [RunningJobs];
    }
    if d.redlineRuns == [] {
      blockers := blockers + [MissingRedlineReport];
    } else if RedlineIsStale(d.redlineRuns[|d.redlineRuns| - 1], d, c, today) {
      blockers := blockers + [StaleRedlineReport];
    }
    if d.checkRuns == [] {
      blockers := blockers + [MissingCompletenessReport];
    } else if CheckIsStale(d.checkRuns[|d.checkRuns| - 1], Applicable(d, c)) {
      blockers := blockers + [StaleCompletenessReport];
    }
  }

  // ---------------------------------------------------------------------------
  // Steps of the deployment
  // ---------------------------------------------------------------------------

  datatype WorldStep =
    | Admin(request: CatalogRequest)
    | NewDay(day: Date)
    | Open(app: AppId, profile: Profile)
    /** The guard on every request of the owner. */
    | Ask(app: AppId, envelope: Envelope, asked: Request)
    | UpdateApplication(app: AppId, version: nat, edit: Profile)
    | CompleteReview(app: AppId, version: nat, now: JobQueue.Time)
    | AskRetry(j: JobQueue.JobId, envelope: Envelope, chosen: set<JobQueue.StepName>)
    /** Workers, uploads, reopening, archiving, reassignment, deletion. */
    | Handle(step: IntakeStep)
    /** The worker's classification is not guarded by the state of the application. */
    | Classify(app: AppId, doc: DocId, found: seq<Category>)

  ghost predicate CanStep(w: World, s: WorldStep) {
    match s
    case NewDay(day) => day >= w.today
    case Open(app, _) => app !in w.holdings.tombstones
    case Ask(_, _, asked) => !asked.UpdateProfile? && !asked.AddCandidates?
    case Handle(step) =>
      Enabled(w.holdings, step)
      && (step.QueueOnly? ==>
            !step.step.CreateApplication? && !step.step.CompleteApplication? && !step.step.RetryJob?)
    case _ => true
  }

  predicate IsMutable(w: World, app: AppId) {
    app in w.holdings.q.apps && app in w.dossiers && JobQueue.Mutable(w.holdings.q.apps[app].state)
  }

  ghost function Documents(w: World, app: AppId): set<DocId> {
    MaterialsOf(w.holdings.q.docs, app)
  }

  ghost function Served(w: World, app: AppId, request: Request): World
    requires app in w.dossiers
  {
    w.(dossiers := w.dossiers[app := Serve(w.dossiers[app], w.catalog, Documents(w, app), w.today, request).0])
  }

  ghost function Submitted(w: World, app: AppId, e: Envelope, request: Request): World
    requires app in w.dossiers && app in w.holdings.q.apps
  {
    var state := w.holdings.q.apps[app].state;
    w.(dossiers := w.dossiers[app :=
         Submit(w.dossiers[app], w.catalog, Documents(w, app), w.today, state, e, request).0])
  }

  function WithQueue(w: World, q: JobQueue.Queue): World {
    w.(holdings := w.holdings.(q := q))
  }

  ghost function StepWorld(w: World, s: WorldStep): World
    requires CanStep(w, s)
  {
    match s
    case Admin(request) => w.(catalog := ServeCatalog(w.catalog, request))
    case NewDay(day) => w.(today := day)
    case Open(app, profile) =>
      if app in w.holdings.q.apps || app in w.dossiers then w
      else
        WithQueue(w, Apply(w.holdings.q, CreateApplication(app))).(
          dossiers := w.dossiers[app := NewDossier(profile)])
    case Ask(app, e, asked) =>
      if app in w.dossiers && app in w.holdings.q.apps then Submitted(w, app, e, asked) else w
    case UpdateApplication(app, version, edit) =>
      if IsMutable(w, app) && w.holdings.q.apps[app].version == version
      then WithQueue(Served(w, app, UpdateProfile(edit)), Apply(w.holdings.q, TouchApplication(app, version)))
      else w
    case CompleteReview(app, version, now) =>
      if app in w.dossiers && RedlineReady(w.dossiers[app], w.catalog, w.today)
          && ChecksReady(w.dossiers[app], w.catalog)
      then WithQueue(w, Apply(w.holdings.q, CompleteApplication(app, version, now))) else w
    case AskRetry(j, e, chosen) =>
      var (q, keys, _) := JobStore.SubmitRetry(w.holdings.q, w.retryKeys, j, e, chosen);
      WithQueue(w, q).(retryKeys := keys)
    case Handle(step) =>
      var after := w.(holdings := Next(w.holdings, w.limits, step));
      if step.HardDelete? then after.(dossiers := w.dossiers - {step.app}) else after
    case Classify(app, doc, found) =>
      if app in w.dossiers then Served(w, app, AddCandidates(doc, found)) else w
  }

  // ---------------------------------------------------------------------------
  // What every step keeps
  // ---------------------------------------------------------------------------

  ghost predicate ReportsCurrent(d: Dossier) {
    && d.redlineRuns != [] && d.redlineRuns[|d.redlineRuns| - 1].status.Current?
    && d.checkRuns != [] && d.checkRuns[|d.checkRuns| - 1].status.Current?
  }

  ghost predicate DossierGood(d: Dossier, c: Catalog) {
    RedlineCoherent(d, c) && CheckCoherent(d, c.templates)
  }

  type Lives = map<AppId, JobQueue.Life>

  /** Every application has coherent reports, and a reviewed one has current ones. */
  ghost predicate ReviewsGood(apps: Lives, dossiers: map<AppId, Dossier>, c: Catalog) {
    && dossiers.Keys == apps.Keys
    && (forall a <- dossiers :: DossierGood(dossiers[a], c))
    && forall a <- dossiers | apps[a].state.ReviewComplete? :: ReportsCurrent(dossiers[a])
  }

  ghost predicate Good(w: World) {
    Sound(w.holdings, w.limits) && CatalogValid(w.catalog) && ReviewsGood(w.holdings.q.apps, w.dossiers, w.catalog)
  }

  lemma ServeKeepsGood(d: Dossier, c: Catalog, docs: set<nat>, today: Date, request: Request)
    requires CatalogValid(c) && DossierGood(d, c)
    ensures DossierGood(Serve(d, c, docs, today, request).0, c)
    ensures request.AddCandidates? && ReportsCurrent(d) ==> ReportsCurrent(Serve(d, c, docs, today, request).0)
  {
    ServeKeepsRedline(d, c, docs, today, request);
    ServeKeepsChecks(d, c, docs, today, request);
  }

  /** No other step of the queue completes an application, and only deletion and creation change which exist. */
  lemma OnlyCompletionCompletes(q: JobQueue.Queue, s: QueueStep)
    requires JobQueue.Consistent(q) && WellFormed(s) && !s.CompleteApplication? && !s.CreateApplication?
        && !s.DeleteApplication?
    ensures Apply(q, s).apps.Keys == q.apps.Keys
    ensures forall a <- q.apps | Apply(q, s).apps[a].state.ReviewComplete? :: q.apps[a].state.ReviewComplete?
  {
    if JobStep(s) && s.j in q.jobs {
      assert JobQueue.JobShown(q, s.j);
      JobStepEffect(q, s);
      JobStepStates(q, s);
    }
  }

  lemma UploadsNeverComplete(q: JobQueue.Queue, d: DocId, doc: JobQueue.Doc, j: JobQueue.JobId,
                             error: Option<string>, now: JobQueue.Time)
    ensures var after := JobQueue.AddDocument(q, d, doc, j, error, now);
            && after.apps.Keys == q.apps.Keys
            && forall a <- q.apps | after.apps[a].state.ReviewComplete? :: q.apps[a].state.ReviewComplete?
  {
  }

  lemma SettlingNeverCompletes(t: Holdings, lim: Limits, u: Upload, key: string, del: Deletion, after: JobQueue.Queue)
    requires Enabled(t, IntakeStep.SettleUpload(u, key, del)) && after == Settle(t, lim, u, key, del).0.q
    ensures after.apps.Keys == t.q.apps.Keys
    ensures forall a <- t.q.apps | after.apps[a].state.ReviewComplete? :: t.q.apps[a].state.ReviewComplete?
  {
    SettleEffect(t, lim, u, key, del, Settle(t, lim, u, key, del).0, Settle(t, lim, u, key, del).1);
    UploadsNeverComplete(t.q, u.doc, NewDoc(u, lim, key), u.job, ErrorAtUpload(u, lim), u.now);
  }

  lemma HandlingNeverCompletes(t: Holdings, lim: Limits, step: IntakeStep)
    requires JobQueue.Consistent(t.q) && Enabled(t, step)
    requires step.QueueOnly? ==> !step.step.CreateApplication? && !step.step.CompleteApplication?
    ensures Next(t, lim, step).q.apps.Keys == if step.HardDelete? then t.q.apps.Keys - {step.app} else t.q.apps.Keys
    ensures forall a <- Next(t, lim, step).q.apps | Next(t, lim, step).q.apps[a].state.ReviewComplete? ::
              t.q.apps[a].state.ReviewComplete?
  {
    match step
    case QueueOnly(s) => OnlyCompletionCompletes(t.q, s);
    case SettleUpload(u, key, del) => SettlingNeverCompletes(t, lim, u, key, del, Settle(t, lim, u, key, del).0.q);
    case HardDelete(app, keys) =>
    case _ =>
  }

  lemma QueueStepKeepsSound(t: Holdings, lim: Limits, s: QueueStep)
    requires Sound(t, lim) && Enabled(t, QueueOnly(s))
    ensures Sound(t.(q := Apply(t.q, s)), lim)
  {
    NextKeepsQueue(t, lim, QueueOnly(s));
    NextKeepsUploads(t, lim, QueueOnly(s));
    NextKeepsObjects(t, lim, QueueOnly(s));
  }

  lemma AdminKeepsReviews(apps: Lives, dossiers: map<AppId, Dossier>, c: Catalog, request: CatalogRequest)
    requires ReviewsGood(apps, dossiers, c) && CatalogValid(c)
    ensures ReviewsGood(apps, dossiers, ServeCatalog(c, request)) && CatalogValid(ServeCatalog(c, request))
  {
    ServeCatalogKeepsValid(c, request);
    forall a <- dossiers ensures DossierGood(dossiers[a], ServeCatalog(c, request)) {
      CatalogKeepsReports(dossiers[a], c, request);
    }
  }

  lemma NewApplicationKeepsReviews(apps: Lives, dossiers: map<AppId, Dossier>, c: Catalog, app: AppId,
      life: JobQueue.Life, profile: Profile)
    requires ReviewsGood(apps, dossiers, c) && app !in apps && life.state.Draft?
    ensures ReviewsGood(apps[app := life], dossiers[app := NewDossier(profile)], c)
  {
    assert DossierGood(NewDossier(profile), c);
  }

  lemma OpenKeepsGood(w: World, app: AppId, profile: Profile)
    requires Good(w) && CanStep(w, Open(app, profile)) && app !in w.holdings.q.apps
    ensures Good(WithQueue(w, Apply(w.holdings.q, CreateApplication(app))).(
              dossiers := w.dossiers[app := NewDossier(profile)]))
  {
    QueueStepKeepsSound(w.holdings, w.limits, CreateApplication(app));
    NewApplicationKeepsReviews(w.holdings.q.apps, w.dossiers, w.catalog, app,
                               JobQueue.Life(JobQueue.Lifecycle.Draft, None, None, 1), profile);
  }

  /** A request on a reviewed application is refused, or adds candidates only. */
  lemma ServedKeepsReviews(apps: Lives, dossiers: map<AppId, Dossier>, c: Catalog, docs: set<nat>, today: Date,
                           app: AppId, request: Request)
    requires ReviewsGood(apps, dossiers, c) && CatalogValid(c) && app in dossiers
    requires JobQueue.Mutable(apps[app].state) || request.AddCandidates?
    ensures ReviewsGood(apps, dossiers[app := Serve(dossiers[app], c, docs, today, request).0], c)
  {
    ServeKeepsGood(dossiers[app], c, docs, today, request);
  }

  lemma ServedKeepsGood(w: World, app: AppId, request: Request)
    requires Good(w) && app in w.dossiers
    requires IsMutable(w, app) || request.AddCandidates?
    ensures Good(Served(w, app, request))
  {
    ServedKeepsReviews(w.holdings.q.apps, w.dossiers, w.catalog, Documents(w, app), w.today, app, request);
  }

  /** Records of keys are read by no report. */
  lemma RecordsDoNotMatter(d: Dossier, after: Dossier, c: Catalog)
    requires DossierGood(d, c) && after == d.(receipts := after.receipts)
    ensures DossierGood(after, c)
  {
    assert EvidenceOf(after, c.templates) == EvidenceOf(d, c.templates);
    forall i | 0 <= i < |d.redlineRuns| && d.redlineRuns[i].status.Current?
      ensures RedlineCached(d.redlineRuns[i], after, c)
    {
      assert RedlineCached(d.redlineRuns[i], d, c);
    }
    forall i | 0 <= i < |d.checkRuns| && d.checkRuns[i].status.Current?
      ensures CheckCached(d.checkRuns[i], after, c.templates)
    {
      assert CheckCached(d.checkRuns[i], d, c.templates);
    }
  }

  lemma SubmitKeepsGood(d: Dossier, c: Catalog, docs: set<DocId>, today: Date, state: JobQueue.Lifecycle, e: Envelope,
                        request: Request, after: Dossier)
    requires CatalogValid(c) && DossierGood(d, c) && after == Submit(d, c, docs, today, state, e, request).0
    ensures DossierGood(after, c) && (!JobQueue.Mutable(state) ==> after == d)
  {
    ServeKeepsGood(d, c, docs, today, request);
    SubmitRecords(d, c, docs, today, state, e, request);
    if after != d && OperationOf(request).Some? {
      RecordsDoNotMatter(Serve(d, c, docs, today, request).0, after, c);
    }
  }

  lemma SubmittedKeepsReviews(apps: Lives, dossiers: map<AppId, Dossier>, c: Catalog, docs: set<DocId>, today: Date,
                              app: AppId, e: Envelope, request: Request, after: Dossier)
    requires ReviewsGood(apps, dossiers, c) && CatalogValid(c) && app in dossiers
    requires after == Submit(dossiers[app], c, docs, today, apps[app].state, e, request).0
    ensures ReviewsGood(apps, dossiers[app := after], c)
  {
    SubmitKeepsGood(dossiers[app], c, docs, today, apps[app].state, e, request, after);
    OneDossierKeepsReviews(apps, dossiers, c, app, after);
  }

  lemma SubmittedKeepsGood(w: World, app: AppId, e: Envelope, request: Request)
    requires Good(w) && app in w.dossiers
    ensures Good(Submitted(w, app, e, request))
  {
    var docs, state := Documents(w, app), w.holdings.q.apps[app].state;
    SubmittedKeepsReviews(w.holdings.q.apps, w.dossiers, w.catalog, docs, w.today, app, e, request,
                          Submit(w.dossiers[app], w.catalog, docs, w.today, state, e, request).0);
  }

  lemma OneDossierKeepsReviews(apps: Lives, dossiers: map<AppId, Dossier>, c: Catalog, app: AppId, after: Dossier)
    requires ReviewsGood(apps, dossiers, c) && app in dossiers && DossierGood(after, c)
    requires apps[app].state.ReviewComplete? ==> after == dossiers[app]
    ensures ReviewsGood(apps, dossiers[app := after], c)
  {
  }

  lemma TouchKeepsGood(w: World, app: AppId, version: nat)
    requires Good(w)
    ensures Good(WithQueue(w, Apply(w.holdings.q, TouchApplication(app, version))))
  {
    QueueStepKeepsSound(w.holdings, w.limits, TouchApplication(app, version));
    OnlyCompletionCompletes(w.holdings.q, TouchApplication(app, version));
  }

  lemma RetryIsOneStep(q: JobQueue.Queue, keys: JobStore.RetryKeys, j: JobQueue.JobId, e: Envelope,
                       chosen: set<JobQueue.StepName>, after: JobQueue.Queue)
    requires after == JobStore.SubmitRetry(q, keys, j, e, chosen).0
    ensures after == q || after == Apply(q, RetryJob(j, chosen))
  {
    JobStore.RecordedRetryHasNoEffect(q, keys, j, e, chosen);
  }

  lemma RetryKeepsGood(w: World, j: JobQueue.JobId, e: Envelope, chosen: set<JobQueue.StepName>,
                       after: JobQueue.Queue, keys: JobStore.RetryKeys)
    requires Good(w) && after == JobStore.SubmitRetry(w.holdings.q, w.retryKeys, j, e, chosen).0
    ensures Good(WithQueue(w, after).(retryKeys := keys))
  {
    RetryIsOneStep(w.holdings.q, w.retryKeys, j, e, chosen, after);
    RetriedQueueIsGood(w, j, chosen, after, keys);
  }

  lemma RetriedQueueIsGood(w: World, j: JobQueue.JobId, chosen: set<JobQueue.StepName>, after: JobQueue.Queue,
                           keys: JobStore.RetryKeys)
    requires Good(w) && (after == w.holdings.q || after == Apply(w.holdings.q, RetryJob(j, chosen)))
    ensures Good(WithQueue(w, after).(retryKeys := keys))
  {
    QueueStepKeepsSound(w.holdings, w.limits, RetryJob(j, chosen));
    OnlyCompletionCompletes(w.holdings.q, RetryJob(j, chosen));
    FewerReviewedKeepReviews(w.holdings.q.apps, after.apps, w.dossiers, w.catalog);
  }

  lemma FewerReviewedKeepReviews(apps: Lives, after: Lives, dossiers: map<AppId, Dossier>, c: Catalog)
    requires ReviewsGood(apps, dossiers, c) && after.Keys == apps.Keys
    requires forall a <- apps | after[a].state.ReviewComplete? :: apps[a].state.ReviewComplete?
    ensures ReviewsGood(after, dossiers, c)
  {
  }

  /** Completion changes one application, whose reports are current. */
  lemma CompleteKeepsReviews(apps: Lives, after: Lives, dossiers: map<AppId, Dossier>, c: Catalog, app: AppId)
    requires ReviewsGood(apps, dossiers, c) && after.Keys == apps.Keys
    requires forall a <- apps | a != app :: after[a] == apps[a]
    requires app in dossiers && ReportsCurrent(dossiers[app])
    ensures ReviewsGood(after, dossiers, c)
  {
  }

  lemma CompletionTouchesOne(q: JobQueue.Queue, app: AppId, version: nat, now: JobQueue.Time, after: Lives)
    requires after == Apply(q, CompleteApplication(app, version, now)).apps
    ensures after.Keys == q.apps.Keys && forall a <- q.apps | a != app :: after[a] == q.apps[a]
  {
  }

  lemma CompleteKeepsGood(w: World, app: AppId, version: nat, now: JobQueue.Time)
    requires Good(w) && app in w.dossiers && ReportsCurrent(w.dossiers[app])
    ensures Good(WithQueue(w, Apply(w.holdings.q, CompleteApplication(app, version, now))))
  {
    var after := Apply(w.holdings.q, CompleteApplication(app, version, now)).apps;
    QueueStepKeepsSound(w.holdings, w.limits, CompleteApplication(app, version, now));
    CompletionTouchesOne(w.holdings.q, app, version, now, after);
    CompleteKeepsReviews(w.holdings.q.apps, after, w.dossiers, w.catalog, app);
  }

  lemma HandleKeepsGood(w: World, step: IntakeStep)
    requires Good(w) && CanStep(w, Handle(step))
    ensures Good(StepWorld(w, Handle(step)))
  {
    NextKeepsQueue(w.holdings, w.limits, step);
    NextKeepsUploads(w.holdings, w.limits, step);
    NextKeepsObjects(w.holdings, w.limits, step);
    HandlingNeverCompletes(w.holdings, w.limits, step);
  }

  lemma StepKeepsGood(w: World, s: WorldStep)
    requires Good(w) && CanStep(w, s)
    ensures Good(StepWorld(w, s))
  {
    match s
    case Admin(request) => AdminKeepsReviews(w.holdings.q.apps, w.dossiers, w.catalog, request);
    case NewDay(_) =>
    case Open(app, profile) => if app !in w.holdings.q.apps { OpenKeepsGood(w, app, profile); }
    case Ask(app, e, asked) => if app in w.dossiers { SubmittedKeepsGood(w, app, e, asked); }
    case UpdateApplication(app, version, edit) =>
      if IsMutable(w, app) && w.holdings.q.apps[app].version == version {
        ServedKeepsGood(w, app, UpdateProfile(edit));
        TouchKeepsGood(Served(w, app, UpdateProfile(edit)), app, version);
      }
    case CompleteReview(app, version, now) =>
      if app in w.dossiers && RedlineReady(w.dossiers[app], w.catalog, w.today)
          && ChecksReady(w.dossiers[app], w.catalog) {
        CompleteKeepsGood(w, app, version, now);
      }
    case AskRetry(j, e, chosen) =>
      var (q, keys, outcome) := JobStore.SubmitRetry(w.holdings.q, w.retryKeys, j, e, chosen);
      RetryKeepsGood(w, j, e, chosen, q, keys);
    case Handle(step) => HandleKeepsGood(w, step);
    case Classify(app, doc, found) => if app in w.dossiers { ServedKeepsGood(w, app, AddCandidates(doc, found)); }
  }

  // ---------------------------------------------------------------------------
  // Whole runs
  // ---------------------------------------------------------------------------

  ghost predicate CanRun(w: World, steps: seq<WorldStep>)
    decreases |steps|
  {
    steps == [] || (CanStep(w, steps[0]) && CanRun(StepWorld(w, steps[0]), steps[1..]))
  }

  ghost function RunWorld(w: World, steps: seq<WorldStep>): World
    requires CanRun(w, steps)
    decreases |steps|
  {
    if steps == [] then w else RunWorld(StepWorld(w, steps[0]), steps[1..])
  }

  /** No application yet, and a catalog that is empty or consistently seeded. */
  ghost predicate Initial(w: World) {
    w.holdings == NOTHING && w.dossiers == map[] && w.retryKeys == map[] && CatalogValid(w.catalog)
  }

  lemma {:induction false} RunsStayGood(w: World, steps: seq<WorldStep>)
    requires Good(w) && CanRun(w, steps)
    ensures Good(RunWorld(w, steps))
    decreases |steps|
  {
    if steps != [] {
      StepKeepsGood(w, steps[0]);
      RunsStayGood(StepWorld(w, steps[0]), steps[1..]);
    }
  }

  lemma ReviewedIsSafe(w: World, app: AppId)
    requires Good(w) && app in w.holdings.q.apps
    ensures app in w.dossiers && LifeSafe(w.holdings.q, app)
    ensures w.holdings.q.apps[app].state.ReviewComplete? ==> ReportsCurrent(w.dossiers[app])
    ensures RedlineFlags(w.dossiers[app].redlineRuns) && CheckFlags(w.dossiers[app].checkRuns)
  {
    assert DossierGood(w.dossiers[app], w.catalog);
    JobQueue.ActiveMeansProcessing(w.holdings.q);
  }

  /** Active jobs only while processing, no document in a draft, and the timestamps of the state. */
  ghost predicate LifeSafe(q: JobQueue.Queue, app: AppId)
    requires app in q.apps
  {
    var life := q.apps[app];
    && (JobQueue.HasActiveJobs(q, app) ==> life.state.Processing?)
    && (life.archivedAt.Some? <==> life.state.Archived?)
    && (life.completedAt.Some? ==> !JobQueue.Mutable(life.state))
    && (life.state.ReviewComplete? ==> life.completedAt.Some?)
    && (life.state.Draft? ==> forall d <- q.docs :: q.docs[d].app != app)
  }

  /**
   * In every state any run reaches: a reviewed or archived application has no active job; a reviewed one has
   * both newest reports stored as current; the timestamps mark exactly the states they are named after; and
   * of each kind of report only the newest can be current.
   */
  lemma ReviewedApplicationsAreSafe(start: World, steps: seq<WorldStep>, app: AppId)
    requires Initial(start) && CanRun(start, steps) && app in RunWorld(start, steps).holdings.q.apps
    ensures var w := RunWorld(start, steps);
            && app in w.dossiers && LifeSafe(w.holdings.q, app)
            && (w.holdings.q.apps[app].state.ReviewComplete? ==> ReportsCurrent(w.dossiers[app]))
            && RedlineFlags(w.dossiers[app].redlineRuns) && CheckFlags(w.dossiers[app].checkRuns)
  {
    NothingIsSound(start.limits);
    RunsStayGood(start, steps);
    ReviewedIsSafe(RunWorld(start, steps), app);
  }

  /**
   * Coherence of the reports over all runs. Whenever a report is not reported stale: the redline report has
   * the verdict of evaluating again now, against the LPR of its as-of date; and each item of the
   * completeness report has its live state, or was missing and now has a candidate to confirm.
   */
  lemma ReportsAreCoherent(start: World, steps: seq<WorldStep>, app: AppId)
    requires Initial(start) && CanRun(start, steps) && app in RunWorld(start, steps).dossiers
    ensures var w := RunWorld(start, steps);
            forall run <- w.dossiers[app].redlineRuns | !RedlineIsStale(run, w.dossiers[app], w.catalog, w.today) ::
              RedlineAgrees(run, w.dossiers[app], w.catalog, w.today)
    ensures var w := RunWorld(start, steps);
            forall run <- w.dossiers[app].checkRuns | !CheckIsStale(run, Applicable(w.dossiers[app], w.catalog)) ::
              ChecksAgree(run, w.dossiers[app], w.catalog)
  {
    NothingIsSound(start.limits);
    RunsStayGood(start, steps);
    var w := RunWorld(start, steps);
    var d := w.dossiers[app];
    assert DossierGood(d, w.catalog);
    forall run <- d.redlineRuns | !RedlineIsStale(run, d, w.catalog, w.today)
      ensures RedlineAgrees(run, d, w.catalog, w.today)
    {
      RedlineReportAgrees(d, w.catalog, w.today, run);
    }
    forall run <- d.checkRuns | !CheckIsStale(run, Applicable(d, w.catalog))
      ensures ChecksAgree(run, d, w.catalog)
    {
      CheckReportAgrees(d, w.catalog, run);
    }
  }

  // ---------------------------------------------------------------------------
  // Idempotency over whole runs
  // ---------------------------------------------------------------------------

  /** The key is recorded, or its application has been deleted for good. */
  ghost predicate Known(w: World, app: AppId, k: IdemKey<Operation>) {
    if app in w.dossiers then k in w.dossiers[app].receipts else app in w.holdings.tombstones
  }

  lemma ServeKeepsReceipts(d: Dossier, c: Catalog, docs: set<nat>, today: Date, request: Request)
    ensures Serve(d, c, docs, today, request).0.receipts == d.receipts
  {
  }

  lemma TombstonesStay(t: Holdings, lim: Limits, s: IntakeStep)
    requires Enabled(t, s)
    ensures t.tombstones.Keys <= Next(t, lim, s).tombstones.Keys
  {
  }

  lemma StepKeepsKnown(w: World, s: WorldStep, app: AppId, k: IdemKey<Operation>)
    requires CanStep(w, s) && Known(w, app, k)
    ensures Known(StepWorld(w, s), app, k)
  {
    match s
    case Ask(a, e, asked) =>
      if a in w.dossiers && a in w.holdings.q.apps {
        SubmitRecords(w.dossiers[a], w.catalog, Documents(w, a), w.today, w.holdings.q.apps[a].state, e, asked);
      }
    case UpdateApplication(a, version, edit) =>
      if a in w.dossiers {
        ServeKeepsReceipts(w.dossiers[a], w.catalog, Documents(w, a), w.today, UpdateProfile(edit));
      }
    case Classify(a, doc, found) =>
      if a in w.dossiers {
        ServeKeepsReceipts(w.dossiers[a], w.catalog, Documents(w, a), w.today, AddCandidates(doc, found));
      }
    case Handle(step) => TombstonesStay(w.holdings, w.limits, step);
    case _ =>
  }

  lemma {:induction false} RunsKeepKnown(w: World, steps: seq<WorldStep>, app: AppId, k: IdemKey<Operation>)
    requires CanRun(w, steps) && Known(w, app, k)
    ensures Known(RunWorld(w, steps), app, k)
    decreases |steps|
  {
    if steps != [] {
      StepKeepsKnown(w, steps[0], app, k);
      RunsKeepKnown(StepWorld(w, steps[0]), steps[1..], app, k);
    }
  }

  /** A request that took effect under its key never does again, in no later state and whatever comes with the key. */
  lemma EffectAtMostOnce(
    w: World, app: AppId, e: Envelope, request: Request, steps: seq<WorldStep>, later: Envelope, again: Request)
    requires CanStep(w, Ask(app, e, request)) && app in w.dossiers && OperationOf(request).Some?
    requires StepWorld(w, Ask(app, e, request)) != w
    requires CanRun(StepWorld(w, Ask(app, e, request)), steps)
    requires OperationOf(again) == OperationOf(request)
    requires KeyFor(later, OperationOf(request).value) == KeyFor(e, OperationOf(request).value)
    ensures var now := RunWorld(StepWorld(w, Ask(app, e, request)), steps);
            StepWorld(now, Ask(app, later, again)) == now
  {
    var k := KeyFor(e, OperationOf(request).value);
    var first := StepWorld(w, Ask(app, e, request));
    EffectRecords(w, app, e, request);
    RunsKeepKnown(first, steps, app, k);
    var now := RunWorld(first, steps);
    if app in now.dossiers && app in now.holdings.q.apps {
      var state := now.holdings.q.apps[app].state;
      RecordedKeyHasNoEffect(now.dossiers[app], now.catalog, Documents(now, app), now.today, state, later, again);
      assert now.dossiers[app := now.dossiers[app]] == now.dossiers;
    }
  }

  lemma EffectRecords(w: World, app: AppId, e: Envelope, request: Request)
    requires CanStep(w, Ask(app, e, request)) && app in w.dossiers && OperationOf(request).Some?
    requires StepWorld(w, Ask(app, e, request)) != w
    ensures Known(StepWorld(w, Ask(app, e, request)), app, KeyFor(e, OperationOf(request).value))
  {
    var d, state := w.dossiers[app], w.holdings.q.apps[app].state;
    assert w.dossiers[app := d] == w.dossiers;
    SubmitRecords(d, w.catalog, Documents(w, app), w.today, state, e, request);
  }

  lemma StepKeepsRetryKeys(w: World, s: WorldStep)
    requires CanStep(w, s)
    ensures w.retryKeys.Keys <= StepWorld(w, s).retryKeys.Keys
  {
    if s.AskRetry? {
      JobStore.RecordedRetryHasNoEffect(w.holdings.q, w.retryKeys, s.j, s.envelope, s.chosen);
    }
  }

  lemma {:induction false} RunsKeepRetryKeys(w: World, steps: seq<WorldStep>)
    requires CanRun(w, steps)
    ensures w.retryKeys.Keys <= RunWorld(w, steps).retryKeys.Keys
    decreases |steps|
  {
    if steps != [] {
      StepKeepsRetryKeys(w, steps[0]);
      RunsKeepRetryKeys(StepWorld(w, steps[0]), steps[1..]);
    }
  }

  /** Nor does a retry: one that reset its job under a key never does again, whichever steps come with the key. */
  lemma RetryAtMostOnce(
    w: World, j: JobQueue.JobId, e: Envelope, chosen: set<JobQueue.StepName>, steps: seq<WorldStep>,
    later: Envelope, again: set<JobQueue.StepName>)
    requires StepWorld(w, AskRetry(j, e, chosen)).holdings.q != w.holdings.q
    requires CanRun(StepWorld(w, AskRetry(j, e, chosen)), steps)
    requires KeyFor(later, j) == KeyFor(e, j)
    ensures var now := RunWorld(StepWorld(w, AskRetry(j, e, chosen)), steps);
            StepWorld(now, AskRetry(j, later, again)) == now
  {
    JobStore.RecordedRetryHasNoEffect(w.holdings.q, w.retryKeys, j, e, chosen);
    var first := StepWorld(w, AskRetry(j, e, chosen));
    RunsKeepRetryKeys(first, steps);
    var now := RunWorld(first, steps);
    JobStore.RecordedRetryHasNoEffect(now.holdings.q, now.retryKeys, j, later, again);
  }
}
