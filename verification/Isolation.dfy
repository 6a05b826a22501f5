/** Applications stay apart: the review of one refers to no document of another, in any reachable state. */
module Isolation {
  import opened Completeness
  import opened Intake
  import JobQueue
  import JobStore
  import opened Lifecycle
  import opened QueueRuns
  import opened Reports
  import opened Requests
  import opened ReviewDesk
  import opened RuleCatalog
  import opened TemplateCatalog
  import opened Wrappers

  /** The documents that the rows of a review name. */
  function Named(d: Dossier): set<DocId> {
    (set m <- d.mappings :: m.doc) + d.categories.Keys + d.candidates.Keys + (set r <- d.reviews :: r.doc)
  }

  lemma {:induction false} CandidateKeys(candidates: map<DocId, set<Category>>, doc: DocId, found: seq<Category>)
    ensures MoreCandidates(candidates, doc, found).Keys <= candidates.Keys + {doc}
  {
    if found != [] {
      CandidateKeys(candidates, doc, found[..|found| - 1]);
    }
  }

  /** No request names a document that is not of the application. */
  lemma ServeNames(d: Dossier, c: Catalog, docs: set<DocId>, today: Date, r: Request, after: Dossier)
    requires after == Serve(d, c, docs, today, r).0
    ensures Named(after) <= Named(d) + docs
  {
    if r.AddCandidates? {
      CandidateKeys(d.candidates, r.doc, r.found);
    }
  }

  lemma SubmitNames(d: Dossier, c: Catalog, docs: set<DocId>, today: Date, state: JobQueue.Lifecycle, e: Envelope,
                    r: Request, after: Dossier)
    requires after == Submit(d, c, docs, today, state, e, r).0
    ensures Named(after) <= Named(d) + docs
  {
    ServeNames(d, c, docs, today, r, Serve(d, c, docs, today, r).0);
  }

  predicate IsDocumentOf(q: JobQueue.Queue, app: AppId, doc: DocId) { doc in q.docs && q.docs[doc].app == app }

  ghost predicate Apart(q: JobQueue.Queue, dossiers: map<AppId, Dossier>) {
    forall a, doc | a in dossiers && doc in Named(dossiers[a]) :: IsDocumentOf(q, a, doc)
  }

  lemma OneMoreStaysApart(q: JobQueue.Queue, dossiers: map<AppId, Dossier>, app: AppId, after: Dossier,
                          docs: set<DocId>)
    requires Apart(q, dossiers) && forall doc :: doc in docs <==> IsDocumentOf(q, app, doc)
    requires Named(after) <= (if app in dossiers then Named(dossiers[app]) else {}) + docs
    ensures Apart(q, dossiers[app := after])
  {
  }

  /** No step takes a document from its application, other than the deletion of that. */
  lemma DocumentsStayPut(t: Holdings, lim: Limits, s: IntakeStep, after: Holdings, app: AppId, doc: DocId)
    requires JobQueue.Consistent(t.q) && Enabled(t, s) && after == Next(t, lim, s)
    requires IsDocumentOf(t.q, app, doc) && !(s.HardDelete? && s.app == app)
    ensures IsDocumentOf(after.q, app, doc)
  {
    match s
    case QueueOnly(step) => QueueStepKeepsMaterials(t.q, step);
    case SettleUpload(u, key, del) =>
      var (settled, outcome) := Settle(t, lim, u, key, del);
      SettleEffect(t, lim, u, key, del, settled, outcome);
      if outcome.Stored? { AddedDocument(t.q, u, lim, key); }
    case _ =>
  }

  lemma HandleStaysApart(t: Holdings, lim: Limits, s: IntakeStep, after: Holdings, before: map<AppId, Dossier>,
                         dossiers: map<AppId, Dossier>)
    requires JobQueue.Consistent(t.q) && Enabled(t, s) && after == Next(t, lim, s) && Apart(t.q, before)
    requires dossiers == if s.HardDelete? then before - {s.app} else before
    ensures Apart(after.q, dossiers)
  {
    forall a, doc | a in dossiers && doc in Named(dossiers[a]) ensures IsDocumentOf(after.q, a, doc) {
      DocumentsStayPut(t, lim, s, after, a, doc);
    }
  }

  lemma SameDocumentsStayApart(q: JobQueue.Queue, after: JobQueue.Queue, dossiers: map<AppId, Dossier>)
    requires Apart(q, dossiers) && SameMaterials(q.docs, after.docs)
    ensures Apart(after, dossiers)
  {
    forall a, doc | a in dossiers && doc in Named(dossiers[a]) ensures IsDocumentOf(after, a, doc) {
      assert IsDocumentOf(q, a, doc);
    }
  }

  lemma RetryKeepsMaterials(q: JobQueue.Queue, keys: JobStore.RetryKeys, j: JobQueue.JobId, e: Envelope,
                            chosen: set<JobQueue.StepName>, after: JobQueue.Queue)
    requires JobQueue.Consistent(q) && after == JobStore.SubmitRetry(q, keys, j, e, chosen).0
    ensures SameMaterials(q.docs, after.docs)
  {
    RetryIsOneStep(q, keys, j, e, chosen, after);
    if after != q { QueueStepKeepsMaterials(q, RetryJob(j, chosen)); }
  }

  lemma ChangedStaysApart(w: World, app: AppId, after: Dossier)
    requires Apart(w.holdings.q, w.dossiers) && app in w.dossiers
    requires Named(after) <= Named(w.dossiers[app]) + Lifecycle.Documents(w, app)
    ensures Apart(w.holdings.q, w.dossiers[app := after])
  {
    OneMoreStaysApart(w.holdings.q, w.dossiers, app, after, Lifecycle.Documents(w, app));
  }

  lemma AskStaysApart(w: World, app: AppId, e: Envelope, asked: Request, after: World)
    requires Apart(w.holdings.q, w.dossiers) && app in w.dossiers && app in w.holdings.q.apps
    requires after == Submitted(w, app, e, asked)
    ensures Apart(after.holdings.q, after.dossiers)
  {
    SubmitNames(w.dossiers[app], w.catalog, Lifecycle.Documents(w, app), w.today, w.holdings.q.apps[app].state, e,
                asked, after.dossiers[app]);
    ChangedStaysApart(w, app, after.dossiers[app]);
  }

  /** The steps of the deployment that leave the documents alone. */
  lemma ReviewStepStaysApart(w: World, s: WorldStep, after: World)
    requires Apart(w.holdings.q, w.dossiers) && CanStep(w, s) && after == StepWorld(w, s)
    requires s.Admin? || s.NewDay? || s.Open? || s.Ask? || s.Classify?
    ensures Apart(after.holdings.q, after.dossiers)
  {
    match s
    case Open(app, profile) =>
      if after != w {
        OneMoreStaysApart(w.holdings.q, w.dossiers, app, NewDossier(profile), Lifecycle.Documents(w, app));
      }
    case Ask(app, e, asked) =>
      if app in w.dossiers && app in w.holdings.q.apps { AskStaysApart(w, app, e, asked, after); }
    case Classify(app, doc, found) =>
      if app in w.dossiers {
        ServeNames(w.dossiers[app], w.catalog, Lifecycle.Documents(w, app), w.today, AddCandidates(doc, found),
                   after.dossiers[app]);
        ChangedStaysApart(w, app, after.dossiers[app]);
      }
    case _ =>
  }

  lemma QueueStepStaysApart(w: World, s: WorldStep, after: World)
    requires JobQueue.Consistent(w.holdings.q) && Apart(w.holdings.q, w.dossiers)
    requires CanStep(w, s) && after == StepWorld(w, s)
    requires s.UpdateApplication? || s.CompleteReview? || s.AskRetry? || s.Handle?
    ensures Apart(after.holdings.q, after.dossiers)
  {
    var q := w.holdings.q;
    match s
    case UpdateApplication(app, version, edit) =>
      if IsMutable(w, app) && q.apps[app].version == version {
        ServeNames(w.dossiers[app], w.catalog, Lifecycle.Documents(w, app), w.today, UpdateProfile(edit),
                   after.dossiers[app]);
        ChangedStaysApart(w, app, after.dossiers[app]);
        QueueStepKeepsMaterials(q, TouchApplication(app, version));
        SameDocumentsStayApart(q, after.holdings.q, after.dossiers);
      }
    case CompleteReview(app, version, now) =>
      QueueStepKeepsMaterials(q, CompleteApplication(app, version, now));
      if after != w { SameDocumentsStayApart(q, after.holdings.q, w.dossiers); }
    case AskRetry(j, e, chosen) =>
      RetryKeepsMaterials(q, w.retryKeys, j, e, chosen, after.holdings.q);
      SameDocumentsStayApart(q, after.holdings.q, w.dossiers);
    case Handle(step) =>
      HandleStaysApart(w.holdings, w.limits, step, after.holdings, w.dossiers, after.dossiers);
    case _ =>
  }

  lemma StepStaysApart(w: World, s: WorldStep)
    requires JobQueue.Consistent(w.holdings.q) && Apart(w.holdings.q, w.dossiers) && CanStep(w, s)
    ensures Apart(StepWorld(w, s).holdings.q, StepWorld(w, s).dossiers)
  {
    if s.UpdateApplication? || s.CompleteReview? || s.AskRetry? || s.Handle? {
      QueueStepStaysApart(w, s, StepWorld(w, s));
    } else {
      ReviewStepStaysApart(w, s, StepWorld(w, s));
    }
  }

  lemma {:induction false} RunsStayApart(w: World, steps: seq<WorldStep>)
    requires Good(w) && Apart(w.holdings.q, w.dossiers) && CanRun(w, steps)
    ensures Apart(RunWorld(w, steps).holdings.q, RunWorld(w, steps).dossiers)
    decreases |steps|
  {
    if steps != [] {
      StepKeepsGood(w, steps[0]);
      StepStaysApart(w, steps[0]);
      RunsStayApart(StepWorld(w, steps[0]), steps[1..]);
    }
  }

  /**
   * In every state any run reaches: each document that a mapping, a confirmed category, a candidate or a review of an
   * application names is a document of that application.
   */
  lemma ApplicationsStayApart(start: World, steps: seq<WorldStep>, app: AppId, doc: DocId)
    requires Initial(start) && CanRun(start, steps)
    requires app in RunWorld(start, steps).dossiers && doc in Named(RunWorld(start, steps).dossiers[app])
    ensures IsDocumentOf(RunWorld(start, steps).holdings.q, app, doc)
  {
    NothingIsSound(start.limits);
    RunsStayApart(start, steps);
  }
}
