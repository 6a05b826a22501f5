/** What the end of a job leaves behind: its document, its application, and what may be tried again. */
module JobOutcomes {
  import opened JobQueue
  import opened QueueRuns
  import opened Requests
  import opened Wrappers

  predicate Heard(job: Job, token: Option<Token>) { job.status.Running? && token.Some? && job.token == token }

  /** The claim is given up, and every step that was running ends as the job does. */
  ghost predicate ClosedAs(before: Job, after: Job, status: JobStatus, error: Option<string>) {
    && after.status == status && after.error == error && after.token.None? && after.claimedAt.None?
    && after.claimedBy.None? && after.attempts == before.attempts && after.doc == before.doc
    && after.createdAt == before.createdAt
    && |after.steps| == |before.steps|
    && forall i | 0 <= i < |before.steps| ::
         && after.steps[i].name == before.steps[i].name
         && (before.steps[i].status.Running? ==> after.steps[i].status == status && after.steps[i].error == error)
         && (!before.steps[i].status.Running? ==> after.steps[i] == before.steps[i])
  }

  lemma FinishedJobSays(job: Job, outcome: JobStatus, error: Option<string>, transient: bool, now: Time)
    ensures var after, again := FinishedJob(job, outcome, error, transient, now), transient && job.attempts < 3;
            && ClosedAs(job, after, if again then Waiting else outcome, error)
            && (!again ==> after.availableAt == job.availableAt)
  {
  }

  /**
   * The whole effect of a finish. It is heard iff the job runs under the presented token; after a transient
   * failure the job waits again while it had fewer than three attempts.
   */
  lemma FinishSays(q: Queue, j: JobId, outcome: JobStatus, token: Option<Token>, error: Option<string>,
                   transient: bool, now: Time, after: Queue)
    requires Joined(q, j) && after == Finish(q, j, outcome, token, error, transient, now)
    ensures !Heard(q.jobs[j], token) ==> after == q
    ensures Heard(q.jobs[j], token) ==>
              var before, again := q.jobs[j], transient && q.jobs[j].attempts < 3;
              && Joined(after, j) && after.jobs == q.jobs[j := after.jobs[j]]
              && ClosedAs(before, after.jobs[j], if again then Waiting else outcome, error)
              && (!again ==> after.jobs[j].availableAt == before.availableAt)
              && after.docs == q.docs[before.doc := q.docs[before.doc].(
                   processing := after.jobs[j].status,
                   review := if outcome in {Success, PartialSuccess, ManualHandling} then PendingReview else NotReady)]
  {
    if Heard(q.jobs[j], token) {
      FinishedJobSays(q.jobs[j], outcome, error, transient, now);
    }
  }

  /** A finish moves its application on to review exactly when no job of it is left, and no other application. */
  lemma FinishMovesOn(q: Queue, j: JobId, outcome: JobStatus, token: Option<Token>, error: Option<string>,
                      transient: bool, now: Time, after: Queue)
    requires Consistent(q) && FinishAccepted(q, j, token)
    requires after == Finish(q, j, outcome, token, error, transient, now)
    ensures var app := AppOf(q, j);
            && app in after.apps && after.apps == q.apps[app := q.apps[app].(state := after.apps[app].state)]
            && after.apps[app].state == if HasActiveJobs(after, app) then Processing else AwaitingReview
  {
    assert JobShown(q, j);
    var closed := Queue(q.apps, after.docs, after.jobs);
    assert forall k <- after.jobs :: IsActiveJobOf(closed, AppOf(q, j), k) == IsActiveJobOf(after, AppOf(q, j), k);
  }

  // ---------------------------------------------------------------------------
  // Which documents are up for review
  // ---------------------------------------------------------------------------

  /** A job that ended well, needs a person, or was refused before any attempt. */
  predicate UpForReview(job: Job) {
    || job.status.Success? || job.status.PartialSuccess? || job.status.ManualHandling?
    || (job.status.Failed? && job.attempts == 0)
  }

  ghost predicate ReviewsShown(q: Queue) {
    forall j <- q.jobs | Joined(q, j) :: q.docs[q.jobs[j].doc].review.PendingReview? <==> UpForReview(q.jobs[j])
  }

  lemma JobStepKeepsReviews(q: Queue, s: QueueStep, after: Queue)
    requires Consistent(q) && WellFormed(s) && ReviewsShown(q) && JobStep(s) && s.j in q.jobs && after == Apply(q, s)
    ensures ReviewsShown(after)
  {
    JobStepEffect(q, s);
    DocumentsStay(q, s);
    OwnReviewShown(q, s, after);
    forall k <- after.jobs | Joined(after, k)
      ensures after.docs[after.jobs[k].doc].review.PendingReview? <==> UpForReview(after.jobs[k])
    {
      if k != s.j {
        assert q.jobs[k].doc != q.jobs[s.j].doc;
        OtherDocuments(q, s, q.jobs[k].doc);
      }
    }
  }

  lemma OtherDocuments(q: Queue, s: QueueStep, d: DocId)
    requires JobStep(s) && Joined(q, s.j) && d in q.docs && d != q.jobs[s.j].doc
    ensures d in Apply(q, s).docs && Apply(q, s).docs[d] == q.docs[d]
  {
  }

  lemma OwnReviewShown(q: Queue, s: QueueStep, after: Queue)
    requires Consistent(q) && WellFormed(s) && ReviewsShown(q) && JobStep(s) && s.j in q.jobs && after == Apply(q, s)
    requires Joined(q, s.j) && Joined(after, s.j)
    ensures after.docs[after.jobs[s.j].doc].review.PendingReview? <==> UpForReview(after.jobs[s.j])
  {
    assert JobConsistent(q.jobs[s.j]) && JobShown(q, s.j);
  }

  lemma UploadKeepsReviews(q: Queue, s: QueueStep, after: Queue)
    requires Consistent(q) && WellFormed(s) && ReviewsShown(q) && s.Upload? && after == Apply(q, s)
    ensures ReviewsShown(after)
  {
    if after != q {
      forall k <- after.jobs | Joined(after, k)
        ensures after.docs[after.jobs[k].doc].review.PendingReview? <==> UpForReview(after.jobs[k])
      {
        if k != s.j {
          assert JobShown(q, k) && after.docs[q.jobs[k].doc] == q.docs[q.jobs[k].doc];
        }
      }
    }
  }

  lemma LifecycleKeepsReviews(q: Queue, s: QueueStep, after: Queue)
    requires Consistent(q) && ReviewsShown(q) && !JobStep(s) && !s.Upload? && after == Apply(q, s)
    ensures ReviewsShown(after)
  {
    JobsUntouched(q, s);
    forall k <- after.jobs | Joined(after, k)
      ensures after.docs[after.jobs[k].doc].review.PendingReview? <==> UpForReview(after.jobs[k])
    {
      assert JobShown(q, k);
    }
  }

  lemma ApplyKeepsReviews(q: Queue, s: QueueStep)
    requires Consistent(q) && WellFormed(s) && ReviewsShown(q)
    ensures ReviewsShown(Apply(q, s))
  {
    JobsUntouched(q, s);
    if JobStep(s) {
      if s.j in q.jobs { JobStepKeepsReviews(q, s, Apply(q, s)); }
    } else if s.Upload? {
      UploadKeepsReviews(q, s, Apply(q, s));
    } else {
      LifecycleKeepsReviews(q, s, Apply(q, s));
    }
  }

  /**
   * In every run: a document is up for review exactly when its job succeeded, wholly or in part, needs a person,
   * or was refused at the upload; and it shows the status of its job.
   */
  lemma {:induction false} ReviewsAreShown(h: History, steps: seq<QueueStep>)
    requires Consistent(h.q) && Balanced(h) && PermittedRun(h, steps) && ReviewsShown(h.q)
    ensures var q := Run(h, steps).q;
            forall j <- q.jobs ::
              && Joined(q, j) && q.docs[q.jobs[j].doc].processing == q.jobs[j].status
              && (q.docs[q.jobs[j].doc].review.PendingReview? <==> UpForReview(q.jobs[j]))
    decreases |steps|
  {
    if steps == [] {
      assert forall j <- h.q.jobs :: JobShown(h.q, j);
    } else {
      ApplyKeeps(h.q, steps[0]);
      AdvanceKeepsBalance(h, steps[0]);
      ApplyKeepsReviews(h.q, steps[0]);
      ReviewsAreShown(Advance(h, steps[0]), steps[1..]);
      assert Run(h, steps) == Run(Advance(h, steps[0]), steps[1..]);
    }
  }

  // ---------------------------------------------------------------------------
  // Trying again
  // ---------------------------------------------------------------------------

  /** A step that a user may have run again: what failed, or after a success also the pages and partial extractions. */
  predicate MayRunAgain(job: Job, s: Step) {
    if job.status in {Success, PartialSuccess} then
      || (s.name in {ParsingOcr, SealDetection} && s.status != StepNotApplicable)
      || (s.name in {CandidateExtraction, Classification} && s.status in {Failed, PartialSuccess, ManualHandling})
    else s.status in {Failed, ManualHandling}
  }

  /** Chosen, or fed by pages that are read again. */
  predicate RunsAgain(name: StepName, chosen: set<StepName>) {
    || name in chosen
    || (name in {CandidateExtraction, Classification} && (ParsingOcr in chosen || SealDetection in chosen))
  }

  /**
   * A retry is accepted iff the application can be modified, the job has ended, and each chosen name is that of a
   * step that may run again. Then exactly the chosen steps and those they feed wait, and the attempts start over.
   */
  lemma RetrySays(q: Queue, j: JobId, chosen: set<StepName>, after: Queue, outcome: Outcome)
    requires Consistent(q) && Joined(q, j) && (after, outcome) == Retry(q, j, chosen)
    ensures outcome.Accepted? <==>
              && q.apps[AppOf(q, j)].state in {Lifecycle.Draft, Processing, AwaitingReview}
              && q.jobs[j].status !in {Waiting, Running}
              && forall name <- chosen :: exists s <- q.jobs[j].steps :: s.name == name && MayRunAgain(q.jobs[j], s)
    ensures !outcome.Accepted? ==> outcome.Conflict? && after == q
    ensures outcome.Accepted? ==>
              var before, app := q.jobs[j], AppOf(q, j);
              && after.jobs == q.jobs[j := after.jobs[j]]
              && after.jobs[j].status.Waiting? && after.jobs[j].attempts == 0 && after.jobs[j].error.None?
              && |after.jobs[j].steps| == |before.steps|
              && (forall i | 0 <= i < |before.steps| ::
                    after.jobs[j].steps[i] == if RunsAgain(before.steps[i].name, chosen)
                                              then before.steps[i].(status := Waiting, error := None)
                                              else before.steps[i])
              && after.docs == q.docs[before.doc := q.docs[before.doc].(processing := Waiting, review := NotReady)]
              && after.apps == q.apps[app := q.apps[app].(state := Processing)]
  {
    assert JobConsistent(q.jobs[j]);
    AllowedExactly(q.jobs[j], chosen);
  }

  lemma AllowedExactly(job: Job, chosen: set<StepName>)
    ensures chosen <= AllowedSteps(job) <==>
              forall name <- chosen :: exists s <- job.steps :: s.name == name && MayRunAgain(job, s)
  {
    forall name ensures name in AllowedSteps(job) <==> exists s <- job.steps :: s.name == name && MayRunAgain(job, s) {
      if s :| s in job.steps && s.name == name && MayRunAgain(job, s) {
        assert s.name in AllowedSteps(job);
      }
    }
  }

  /** The steps of a new job, by the format of its document; a job closed at upload runs none. */
  lemma NewJobSays(d: DocId, format: Format, status: JobStatus, error: Option<string>, now: Time)
    ensures var job, skipped := NewJob(d, format, status, error, now), (name: StepName) =>
                  Step(name, StepNotApplicable, None);
            && job.doc == d && job.status == status && job.attempts == 0 && job.error == error
            && job.createdAt == job.availableAt == now && job.token.None? && job.claimedAt.None?
            && |job.steps| == 6 && job.steps[0] == Step(Validation, status, error)
            && job.steps[2] == skipped(StructureExtraction)
            && (if status.Waiting?
                then && job.steps[1] == (if format.OtherFormat? then skipped(ParsingOcr)
                                         else Step(ParsingOcr, Waiting, None))
                     && job.steps[3] == (if format.PageFormat? then Step(SealDetection, Waiting, None)
                                         else skipped(SealDetection))
                     && job.steps[4] == Step(Classification, Waiting, None)
                     && job.steps[5] == Step(CandidateExtraction, Waiting, None)
                else && job.steps[1] == skipped(ParsingOcr) && job.steps[3] == skipped(SealDetection)
                     && job.steps[4] == skipped(Classification) && job.steps[5] == skipped(CandidateExtraction))
  {
  }
}
