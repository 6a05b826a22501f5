/** Applications, documents and their processing jobs: leases, retries and the lifecycle they drive. */
module JobQueue {
  import opened Requests
  import opened Wrappers

  type JobId = nat
  type Token = nat
  type Time = int

  const MAX_ATTEMPTS := 3

  datatype JobStatus = Waiting | Running | Success | PartialSuccess | Failed | ManualHandling | StepNotApplicable

  datatype StepName =
    | Validation | ParsingOcr | StructureExtraction | SealDetection | Classification | CandidateExtraction

  datatype Step = Step(name: StepName, status: JobStatus, error: Option<string>)

  datatype ReviewStatus = NotReady | PendingReview

  datatype Format = PageFormat | StructuredFormat | OtherFormat

  datatype Doc = Doc(
    app: AppId, sha256: string, size: nat, objectKey: string, format: Format,
    processing: JobStatus, review: ReviewStatus)

  datatype Job = Job(
    doc: DocId, status: JobStatus, attempts: nat, createdAt: Time, availableAt: Time,
    claimedBy: Option<string>, claimedAt: Option<Time>, token: Option<Token>,
    error: Option<string>, steps: seq<Step>)

  datatype Lifecycle = Draft | Processing | AwaitingReview | ReviewComplete | Archived

  /** The columns of an application that its lifecycle uses. */
  datatype Life = Life(state: Lifecycle, completedAt: Option<Time>, archivedAt: Option<Time>, version: nat)

  datatype Queue = Queue(apps: map<AppId, Life>, docs: map<DocId, Doc>, jobs: map<JobId, Job>)

  predicate Active(status: JobStatus) { status.Waiting? || status.Running? }

  predicate Mutable(state: Lifecycle) { state.Draft? || state.Processing? || state.AwaitingReview? }

  /** What a worker may report as the outcome of a job. */
  predicate IsOutcome(status: JobStatus) {
    status.Success? || status.PartialSuccess? || status.Failed? || status.ManualHandling?
  }

  predicate IsActiveJobOf(q: Queue, app: AppId, j: JobId) {
    && j in q.jobs && Active(q.jobs[j].status)
    && q.jobs[j].doc in q.docs && q.docs[q.jobs[j].doc].app == app
  }

  predicate HasActiveJobs(q: Queue, app: AppId) {
    exists j <- q.jobs :: IsActiveJobOf(q, app, j)
  }

  // ---------------------------------------------------------------------------
  // Steps of a job
  // ---------------------------------------------------------------------------

  const ALL_STEPS := [Validation, ParsingOcr, StructureExtraction, SealDetection, Classification, CandidateExtraction]

  predicate ShouldRun(name: StepName, format: Format, waiting: bool) {
    || name.Validation?
    || (waiting && (|| name.CandidateExtraction? || name.Classification?
                    || (name.ParsingOcr? && !format.OtherFormat?)
                    || (name.SealDetection? && format.PageFormat?)))
  }

  function NewStep(name: StepName, format: Format, status: JobStatus, error: Option<string>): Step {
    Step(name,
         if ShouldRun(name, format, status.Waiting?) then status else StepNotApplicable,
         if name.Validation? then error else None)
  }

  function NewSteps(format: Format, status: JobStatus, error: Option<string>): (steps: seq<Step>)
    ensures |steps| == |ALL_STEPS|
    ensures forall i | 0 <= i < |steps| :: steps[i] == NewStep(ALL_STEPS[i], format, status, error)
  {
    seq(|ALL_STEPS|, i requires 0 <= i < |ALL_STEPS| => NewStep(ALL_STEPS[i], format, status, error))
  }

  function StartStep(s: Step): Step {
    if s.status.Waiting? then s.(status := Running, error := None) else s
  }

  function CloseStep(s: Step, status: JobStatus, error: Option<string>): Step {
    if s.status.Running? then s.(status := status, error := error) else s
  }

  function SelectStep(s: Step, selected: set<StepName>): Step {
    if s.name in selected then s.(status := Waiting, error := None) else s
  }

  function StartSteps(steps: seq<Step>): (r: seq<Step>)
    ensures |r| == |steps| && forall i | 0 <= i < |r| :: r[i] == StartStep(steps[i])
  {
    seq(|steps|, i requires 0 <= i < |steps| => StartStep(steps[i]))
  }

  function CloseSteps(steps: seq<Step>, status: JobStatus, error: Option<string>): (r: seq<Step>)
    ensures |r| == |steps| && forall i | 0 <= i < |r| :: r[i] == CloseStep(steps[i], status, error)
  {
    seq(|steps|, i requires 0 <= i < |steps| => CloseStep(steps[i], status, error))
  }

  function SelectSteps(steps: seq<Step>, selected: set<StepName>): (r: seq<Step>)
    ensures |r| == |steps| && forall i | 0 <= i < |r| :: r[i] == SelectStep(steps[i], selected)
  {
    seq(|steps|, i requires 0 <= i < |steps| => SelectStep(steps[i], selected))
  }

  // ---------------------------------------------------------------------------
  // Operations
  // ---------------------------------------------------------------------------

  /** Rows of jobs and of their documents are never separated. */
  predicate Joined(q: Queue, j: JobId) {
    j in q.jobs && q.jobs[j].doc in q.docs && q.docs[q.jobs[j].doc].app in q.apps
  }

  predicate Claimable(job: Job, now: Time) {
    job.status.Waiting? && job.availableAt <= now
  }

  function SetProcessing(docs: map<DocId, Doc>, d: DocId, status: JobStatus): map<DocId, Doc>
    requires d in docs
  {
    docs[d := docs[d].(processing := status)]
  }

  function Claim(q: Queue, j: JobId, worker: string, now: Time, token: Token): Queue {
    if !Joined(q, j) || !Claimable(q.jobs[j], now) then q
    else
      var job := q.jobs[j];
      q.(jobs := q.jobs[j := job.(
           status := Running, claimedBy := Some(worker), claimedAt := Some(now), token := Some(token),
           attempts := job.attempts + 1, steps := StartSteps(job.steps))],
         docs := SetProcessing(q.docs, job.doc, Running))
  }

  predicate Holds(q: Queue, j: JobId, token: Token) {
    j in q.jobs && q.jobs[j].status.Running? && q.jobs[j].token == Some(token)
  }

  function Renew(q: Queue, j: JobId, token: Token, now: Time): Queue {
    if Holds(q, j, token) then q.(jobs := q.jobs[j := q.jobs[j].(claimedAt := Some(now))]) else q
  }

  /** 2 to the power attempts - 1, for the attempts after which a job is tried again. */
  function Backoff(attempts: nat): int {
    if attempts <= 1 then 1 else 2 * Backoff(attempts - 1)
  }

  predicate LeaseExpired(job: Job, cutoff: Time) {
    job.status.Running? && job.claimedAt.Some? && job.claimedAt.value < cutoff
  }

  predicate Exhausted(job: Job) { job.attempts >= MAX_ATTEMPTS }

  /** Recovery of one job whose worker went silent. The lifecycle of the application is not touched. */
  function Recover(q: Queue, j: JobId, cutoff: Time, now: Time): Queue {
    if !Joined(q, j) || !LeaseExpired(q.jobs[j], cutoff) then q
    else
      var job := q.jobs[j];
      var status := if Exhausted(job) then Failed else Waiting;
      var error := if Exhausted(job) then Some("worker_crash_attempts_exhausted") else None;
      q.(jobs := q.jobs[j := job.(
           status := status, error := error, claimedBy := None, claimedAt := None, token := None,
           availableAt := if Exhausted(job) then job.availableAt else now + Backoff(job.attempts),
           steps := CloseSteps(job.steps, status, error))],
         docs := SetProcessing(q.docs, job.doc, status))
  }

  /**
   * The token a finish acts with: the one passed in, or else the one in the caller's own copy of the row,
   * which dates from when the caller last read the row.
   */
  function PresentedToken(held: Option<Token>, copyToken: Option<Token>): Option<Token> {
    if held.Some? then held else copyToken
  }

  predicate FinishAccepted(q: Queue, j: JobId, token: Option<Token>) {
    Joined(q, j) && token.Some? && q.jobs[j].status.Running? && q.jobs[j].token == token
  }

  function FinishedJob(job: Job, outcome: JobStatus, error: Option<string>, transient: bool, now: Time): Job {
    var again := transient && job.attempts < MAX_ATTEMPTS;
    var status := if again then Waiting else outcome;
    job.(status := status, error := error, claimedBy := None, claimedAt := None, token := None,
         availableAt := if again then now + Backoff(job.attempts) else job.availableAt,
         steps := CloseSteps(job.steps, status, error))
  }

  function ReviewAfter(outcome: JobStatus): ReviewStatus {
    if outcome.Success? || outcome.PartialSuccess? || outcome.ManualHandling? then PendingReview else NotReady
  }

  /** The job and its document, closed or sent back to wait. */
  function WithJobClosed(q: Queue, j: JobId, job: Job, review: ReviewStatus): Queue
    requires job.doc in q.docs
  {
    q.(jobs := q.jobs[j := job],
       docs := q.docs[job.doc := q.docs[job.doc].(processing := job.status, review := review)])
  }

  /** An application without active jobs waits for review, unless it is already complete or archived. */
  function MovedOn(q: Queue, app: AppId): Queue
    requires app in q.apps
  {
    var life := q.apps[app];
    if HasActiveJobs(q, app) || life.state.Archived? || life.state.ReviewComplete? then q
    else q.(apps := q.apps[app := life.(state := AwaitingReview)])
  }

  function Finish(q: Queue, j: JobId, outcome: JobStatus, token: Option<Token>, error: Option<string>,
                  transient: bool, now: Time): Queue
  {
    if !FinishAccepted(q, j, token) then q
    else
      var job := FinishedJob(q.jobs[j], outcome, error, transient, now);
      MovedOn(WithJobClosed(q, j, job, ReviewAfter(outcome)), q.docs[job.doc].app)
  }

  /** A worker that computed a step before it lost its lease may still store the step's final status. */
  function WriteStep(q: Queue, j: JobId, i: nat, status: JobStatus, error: Option<string>): Queue {
    if j in q.jobs && i < |q.jobs[j].steps| && !Active(status)
    then
      var steps := q.jobs[j].steps;
      q.(jobs := q.jobs[j := q.jobs[j].(steps := steps[i := steps[i].(status := status, error := error)])])
    else q
  }

  predicate FailedStep(s: Step) { s.status.Failed? || s.status.ManualHandling? }

  predicate RerunnableStep(s: Step) {
    || ((s.name.ParsingOcr? || s.name.SealDetection?) && !s.status.StepNotApplicable?)
    || ((s.name.CandidateExtraction? || s.name.Classification?)
        && (s.status.Failed? || s.status.PartialSuccess? || s.status.ManualHandling?))
  }

  function AllowedSteps(job: Job): set<StepName> {
    if job.status.Success? || job.status.PartialSuccess?
    then set s <- job.steps | RerunnableStep(s) :: s.name
    else set s <- job.steps | FailedStep(s) :: s.name
  }

  function SelectedWithFollowers(selected: set<StepName>): set<StepName> {
    if ParsingOcr in selected || SealDetection in selected
    then selected + {CandidateExtraction, Classification} else selected
  }

  function Retry(q: Queue, j: JobId, selected: set<StepName>): (Queue, Outcome) {
    if !Joined(q, j) then (q, NotFound)
    else
      var job, app := q.jobs[j], q.docs[q.jobs[j].doc].app;
      if !Mutable(q.apps[app].state) || Active(job.status) || job.status.StepNotApplicable?
         || !(selected <= AllowedSteps(job)) then (q, Conflict)
      else
        (q.(jobs := q.jobs[j := job.(status := Waiting, error := None, attempts := 0,
                                     steps := SelectSteps(job.steps, SelectedWithFollowers(selected)))],
            docs := q.docs[job.doc := q.docs[job.doc].(processing := Waiting, review := NotReady)],
            apps := q.apps[app := q.apps[app].(state := Processing)]), Accepted)
  }

  function NewJob(d: DocId, format: Format, status: JobStatus, error: Option<string>, now: Time): Job {
    Job(d, status, 0, now, now, None, None, None, error, NewSteps(format, status, error))
  }

  /** Processing as long as any job is active, otherwise waiting for review. */
  function Refreshed(q: Queue, app: AppId): Queue
    requires app in q.apps
  {
    q.(apps := q.apps[app := q.apps[app].(state := if HasActiveJobs(q, app) then Processing else AwaitingReview)])
  }

  /** A document comes in with its only job: waiting, or closed at once when it cannot be processed. */
  function AddDocument(q: Queue, d: DocId, doc: Doc, j: JobId, error: Option<string>, now: Time): Queue {
    if doc.app !in q.apps || !Mutable(q.apps[doc.app].state) || d in q.docs || j in q.jobs
       || doc.processing.Running? || doc.processing.StepNotApplicable? then q
    else
      var added := q.(docs := q.docs[d := doc], jobs := q.jobs[j := NewJob(d, doc.format, doc.processing, error, now)]);
      Refreshed(added, doc.app)
  }

  function CreateApp(q: Queue, app: AppId): Queue {
    if app in q.apps then q else q.(apps := q.apps[app := Life(Lifecycle.Draft, None, None, 1)])
  }

  /** Completion, once the two reports of the application are known to be there and not stale. */
  function Complete(q: Queue, app: AppId, version: nat, now: Time): (Queue, Outcome) {
    if app !in q.apps then (q, NotFound)
    else
      var life := q.apps[app];
      if life.version != version || !life.state.AwaitingReview? || HasActiveJobs(q, app) then (q, Conflict)
      else (q.(apps := q.apps[app := life.(
              state := ReviewComplete, completedAt := Some(now), version := version + 1)]), Accepted)
  }

  function Reopen(q: Queue, app: AppId, version: nat): (Queue, Outcome) {
    if app !in q.apps then (q, NotFound)
    else
      var life := q.apps[app];
      if life.version != version || !(life.state.ReviewComplete? || life.state.Archived?) then (q, Conflict)
      else (q.(apps := q.apps[app := Life(AwaitingReview, None, None, version + 1)]), Accepted)
  }

  function Archive(q: Queue, app: AppId, version: nat, now: Time): (Queue, Outcome) {
    if app !in q.apps then (q, NotFound)
    else
      var life := q.apps[app];
      if life.version != version || life.state.Processing? || HasActiveJobs(q, app) || life.state.Archived?
      then (q, Conflict)
      else
        (q.(apps := q.apps[app := life.(state := Archived, archivedAt := Some(now), version := version + 1)]), Accepted)
  }

  /** Reassignment and profile edits are compare-and-set on the version. */
  function BumpVersion(q: Queue, app: AppId, version: nat): (Queue, Outcome) {
    if app !in q.apps then (q, NotFound)
    else if q.apps[app].version != version then (q, Conflict)
    else (q.(apps := q.apps[app := q.apps[app].(version := version + 1)]), Accepted)
  }

  /** Deleting an application cascades to its documents and their jobs. */
  function DeleteApp(q: Queue, app: AppId): Queue {
    var docs := map d <- q.docs | q.docs[d].app != app :: q.docs[d];
    Queue(q.apps - {app}, docs, map j <- q.jobs | q.jobs[j].doc in docs :: q.jobs[j])
  }

  // ---------------------------------------------------------------------------
  // What every step keeps
  // ---------------------------------------------------------------------------

  ghost predicate NoStep(steps: seq<Step>, status: JobStatus) {
    forall i | 0 <= i < |steps| :: steps[i].status != status
  }

  /** Status, lease, attempts and steps of one job fit together. */
  ghost predicate JobConsistent(job: Job) {
    match job.status
    case Waiting => NoStep(job.steps, Running) && job.attempts < MAX_ATTEMPTS && job.token.None? && job.claimedAt.None?
    case Running =>
      && NoStep(job.steps, Waiting)
      && 1 <= job.attempts <= MAX_ATTEMPTS && job.token.Some? && job.claimedAt.Some?
    case StepNotApplicable => false
    case _ =>
      && NoStep(job.steps, Waiting) && NoStep(job.steps, Running)
      && job.attempts <= MAX_ATTEMPTS && job.token.None? && job.claimedAt.None?
  }

  /** The document and the application of a job show what the job is doing. */
  ghost predicate JobShown(q: Queue, j: JobId)
    requires j in q.jobs
  {
    && Joined(q, j)
    && q.docs[q.jobs[j].doc].processing == q.jobs[j].status
    && (Active(q.jobs[j].status) ==>
          && q.docs[q.jobs[j].doc].review.NotReady?
          && q.apps[q.docs[q.jobs[j].doc].app].state.Processing?)
  }

  ghost predicate LifeConsistent(life: Life) {
    && (life.archivedAt.Some? <==> life.state.Archived?)
    && (life.completedAt.Some? ==> !Mutable(life.state))
    && (life.state.ReviewComplete? ==> life.completedAt.Some?)
  }

  ghost predicate Consistent(q: Queue) {
    && (forall d <- q.docs :: q.docs[d].app in q.apps && !q.apps[q.docs[d].app].state.Draft?)
    && (forall j <- q.jobs :: JobConsistent(q.jobs[j]) && JobShown(q, j))
    && (forall i, j | i in q.jobs && j in q.jobs && q.jobs[i].doc == q.jobs[j].doc :: i == j)
    && (forall a <- q.apps :: LifeConsistent(q.apps[a]))
  }

  lemma ClaimKeeps(q: Queue, j: JobId, worker: string, now: Time, token: Token)
    requires Consistent(q)
    ensures Consistent(Claim(q, j, worker, now, token))
  {
  }

  lemma RenewKeeps(q: Queue, j: JobId, token: Token, now: Time)
    requires Consistent(q)
    ensures Consistent(Renew(q, j, token, now))
  {
  }

  lemma RecoverKeeps(q: Queue, j: JobId, cutoff: Time, now: Time)
    requires Consistent(q)
    ensures Consistent(Recover(q, j, cutoff, now))
  {
  }

  lemma FinishedJobConsistent(job: Job, outcome: JobStatus, error: Option<string>, transient: bool, now: Time)
    requires job.status.Running? && JobConsistent(job) && IsOutcome(outcome)
    ensures JobConsistent(FinishedJob(job, outcome, error, transient, now))
  {
  }

  lemma FinishKeeps(q: Queue, j: JobId, outcome: JobStatus, token: Option<Token>, error: Option<string>,
      transient: bool, now: Time)
    requires Consistent(q) && IsOutcome(outcome) && (transient ==> outcome.Failed?)
    ensures Consistent(Finish(q, j, outcome, token, error, transient, now))
  {
    if FinishAccepted(q, j, token) {
      var after := Finish(q, j, outcome, token, error, transient, now);
      var job, app := after.jobs[j], q.docs[q.jobs[j].doc].app;
      FinishedJobConsistent(q.jobs[j], outcome, error, transient, now);
      assert q.apps[app].state.Processing?;
      forall k <- after.jobs ensures JobConsistent(after.jobs[k]) && JobShown(after, k) {
        if k != j {
          assert JobShown(q, k) && after.jobs[k] == q.jobs[k];
          assert after.docs[q.jobs[k].doc] == q.docs[q.jobs[k].doc];
        }
        if IsActiveJobOf(after, app, k) {
          assert IsActiveJobOf(Queue(q.apps, after.docs, after.jobs), app, k);
        }
      }
    }
  }

  lemma WriteStepKeeps(q: Queue, j: JobId, i: nat, status: JobStatus, error: Option<string>)
    requires Consistent(q)
    ensures Consistent(WriteStep(q, j, i, status, error))
  {
  }

  lemma RetryKeeps(q: Queue, j: JobId, selected: set<StepName>)
    requires Consistent(q)
    ensures Consistent(Retry(q, j, selected).0)
  {
    var after := Retry(q, j, selected).0;
    if after != q {
      forall k <- after.jobs ensures JobConsistent(after.jobs[k]) && JobShown(after, k) {
        assert JobConsistent(q.jobs[k]) && JobShown(q, k);
      }
    }
  }

  lemma AddDocumentKeeps(q: Queue, d: DocId, doc: Doc, j: JobId, error: Option<string>, now: Time)
    requires Consistent(q) && doc.review == ReviewAtUpload(doc.processing)
    ensures Consistent(AddDocument(q, d, doc, j, error, now))
  {
    var after := AddDocument(q, d, doc, j, error, now);
    if after != q {
      forall k <- after.jobs ensures JobConsistent(after.jobs[k]) && JobShown(after, k) {
        if k != j {
          assert JobShown(q, k) && after.jobs[k] == q.jobs[k];
          assert after.docs[q.jobs[k].doc] == q.docs[q.jobs[k].doc];
        }
        if IsActiveJobOf(after, doc.app, k) {
          assert IsActiveJobOf(Queue(q.apps, after.docs, after.jobs), doc.app, k);
        }
      }
    }
  }

  /** A document that waits for the worker is not ready; one closed at upload waits for review. */
  function ReviewAtUpload(processing: JobStatus): ReviewStatus {
    if processing.Waiting? then NotReady else PendingReview
  }

  /** Changing the state of an application is safe while it has no active job, and never makes it a draft. */
  lemma SetLifeKeeps(q: Queue, app: AppId, life: Life)
    requires Consistent(q) && app in q.apps && LifeConsistent(life)
    requires life.state == q.apps[app].state || (!life.state.Draft? && !HasActiveJobs(q, app))
    ensures Consistent(q.(apps := q.apps[app := life]))
  {
    var after := q.(apps := q.apps[app := life]);
    forall j <- q.jobs ensures JobShown(after, j) {
      assert JobShown(q, j) && (IsActiveJobOf(q, app, j) ==> HasActiveJobs(q, app));
    }
  }

  lemma CompleteKeeps(q: Queue, app: AppId, version: nat, now: Time)
    requires Consistent(q)
    ensures Consistent(Complete(q, app, version, now).0)
  {
    if Complete(q, app, version, now).1.Accepted? {
      SetLifeKeeps(q, app, Complete(q, app, version, now).0.apps[app]);
    }
  }

  lemma ReopenKeeps(q: Queue, app: AppId, version: nat)
    requires Consistent(q)
    ensures Consistent(Reopen(q, app, version).0)
  {
    ActiveMeansProcessing(q);
    if Reopen(q, app, version).1.Accepted? {
      SetLifeKeeps(q, app, Reopen(q, app, version).0.apps[app]);
    }
  }

  lemma ArchiveKeeps(q: Queue, app: AppId, version: nat, now: Time)
    requires Consistent(q)
    ensures Consistent(Archive(q, app, version, now).0)
  {
    if Archive(q, app, version, now).1.Accepted? {
      SetLifeKeeps(q, app, Archive(q, app, version, now).0.apps[app]);
    }
  }

  lemma BumpVersionKeeps(q: Queue, app: AppId, version: nat)
    requires Consistent(q)
    ensures Consistent(BumpVersion(q, app, version).0)
  {
    if app in q.apps {
      SetLifeKeeps(q, app, q.apps[app].(version := version + 1));
    }
  }

  lemma CreateAppKeeps(q: Queue, app: AppId)
    requires Consistent(q)
    ensures Consistent(CreateApp(q, app))
  {
    forall j <- q.jobs ensures JobShown(CreateApp(q, app), j) {
      assert JobShown(q, j);
    }
  }

  lemma DeleteKeeps(q: Queue, app: AppId)
    requires Consistent(q)
    ensures Consistent(DeleteApp(q, app))
  {
  }

  /** Only an application in processing has active jobs. */
  lemma ActiveMeansProcessing(q: Queue)
    requires Consistent(q)
    ensures forall a <- q.apps | HasActiveJobs(q, a) :: q.apps[a].state.Processing?
  {
  }
}
