/** The job table as the worker and the retry endpoint change it, row by row and step by step. */
module JobStore {
  import opened JobQueue
  import opened Requests
  import opened Wrappers

  /** Foreign keys: each job has its document, and each document its application. */
  predicate Linked(q: Queue) {
    forall j <- q.jobs :: Joined(q, j)
  }

  /** One recovery after the other. */
  ghost function RecoverAll(q: Queue, ids: seq<JobId>, cutoff: Time, now: Time): Queue {
    if ids == [] then q
    else Recover(RecoverAll(q, ids[..|ids| - 1], cutoff, now), ids[|ids| - 1], cutoff, now)
  }

  lemma RecoverOneMore(q: Queue, ids: seq<JobId>, j: JobId, cutoff: Time, now: Time)
    ensures RecoverAll(q, ids + [j], cutoff, now) == Recover(RecoverAll(q, ids, cutoff, now), j, cutoff, now)
  {
    assert (ids + [j])[..|ids|] == ids;
  }

  /** The expired jobs are those already recovered, each once, and those still to be: these are as they were. */
  ghost predicate Recovering(before: map<JobId, Job>, jobs: map<JobId, Job>, stale: set<JobId>, ids: seq<JobId>,
      cutoff: Time) {
    && jobs.Keys == before.Keys && stale <= jobs.Keys
    && (forall j <- before :: j in stale || j in ids <==> LeaseExpired(before[j], cutoff))
    && (forall j <- stale :: j !in ids && jobs[j] == before[j])
    && (forall j <- ids :: j in before)
    && forall i, k | 0 <= i < k < |ids| :: ids[i] != ids[k]
  }

  lemma OneRecovered(before: map<JobId, Job>, was: map<JobId, Job>, jobs: map<JobId, Job>, stale: set<JobId>,
                     ids: seq<JobId>, j: JobId, cutoff: Time)
    requires Recovering(before, was, stale, ids, cutoff) && j in stale
    requires jobs.Keys == was.Keys && forall k <- jobs | k != j :: jobs[k] == was[k]
    ensures Recovering(before, jobs, stale - {j}, ids + [j], cutoff)
  {
  }

  type RetryKeys = map<IdemKey<JobId>, IdemRecord<DocId>>

  /** A retry is guarded by the state of the application first and by its key second. */
  function SubmitRetry(q: Queue, keys: RetryKeys, j: JobId, e: Envelope, chosen: set<StepName>)
    : (Queue, RetryKeys, Outcome)
  {
    if !Joined(q, j) then (q, keys, NotFound)
    else if !Mutable(q.apps[q.docs[q.jobs[j].doc].app].state) then (q, keys, Conflict)
    else
      match ReplayOf(keys, KeyFor(e, j), e.requestHash)
      case Mismatch => (q, keys, Conflict)
      case SameRequest(_) => (q, keys, Accepted)
      case NewRequest =>
        var (after, outcome) := Retry(q, j, chosen);
        (after, if outcome.Accepted? then keys[KeyFor(e, j) := IdemRecord(e.requestHash, q.jobs[j].doc)] else keys,
            outcome)
  }

  /** A recorded key of a retry never resets the attempts of its job again; and every retry records its key. */
  lemma RecordedRetryHasNoEffect(q: Queue, keys: RetryKeys, j: JobId, e: Envelope, chosen: set<StepName>)
    ensures var (after, later, outcome) := SubmitRetry(q, keys, j, e, chosen);
            && (KeyFor(e, j) in keys ==> after == q && later == keys)
            && (after != q ==> KeyFor(e, j) in later && after == Retry(q, j, chosen).0)
            && (forall k <- keys :: k in later && later[k] == keys[k])
  {
  }

  /** The answer to a retry: the guard, then the key, then the retry itself. */
  lemma SubmitRetrySays(q: Queue, keys: RetryKeys, j: JobId, e: Envelope, chosen: set<StepName>)
    requires Linked(q)
    ensures var (after, later, outcome) := SubmitRetry(q, keys, j, e, chosen);
            var k := IdemKey(e.actor, j, e.key);
            if j !in q.jobs then (after, later, outcome) == (q, keys, NotFound)
            else if q.apps[q.docs[q.jobs[j].doc].app].state in {ReviewComplete, Archived} then
              (after, later, outcome) == (q, keys, Conflict)
            else if k in keys then
              (after, later, outcome) == (q, keys, if keys[k].requestHash == e.requestHash then Accepted else Conflict)
            else
              && (after, outcome) == Retry(q, j, chosen)
              && later == if outcome.Accepted? then keys[k := IdemRecord(e.requestHash, q.jobs[j].doc)] else keys
  {
    if j in q.jobs { assert Joined(q, j); }
  }

  /** The steps of a new job, in the order of the processing pipeline. */
  method DocumentJob(d: DocId, format: Format, status: JobStatus, error: Option<string>, now: Time) returns (job: Job)
    ensures job == NewJob(d, format, status, error, now)
  {
    var steps := [];
    for i := 0 to |ALL_STEPS|
      invariant |steps| == i
      invariant forall k | 0 <= k < i :: steps[k] == NewStep(ALL_STEPS[k], format, status, error)
    {
      var name := ALL_STEPS[i];
      var isValidation := name.Validation?;
      var parses := match format
        case PageFormat => name.ParsingOcr? || name.SealDetection?
        case StructuredFormat => name.ParsingOcr?
        case OtherFormat => false;
      var shouldRun := isValidation
        || (status.Waiting? && (parses || name.CandidateExtraction? || name.Classification?));
      steps := steps + [Step(name, if shouldRun then status else StepNotApplicable,
          if isValidation then error else None)];
    }
    return Job(d, status, 0, now, now, None, None, None, error, steps);
  }

  class Jobs {
    var apps: map<AppId, Life>
    var docs: map<DocId, Doc>
    var jobs: map<JobId, Job>
    var retryKeys: RetryKeys

    function Contents(): Queue
      reads this
    {
      Queue(apps, docs, jobs)
    }

    constructor ()
      ensures Contents() == Queue(map[], map[], map[]) && retryKeys == map[]
    {
      apps, docs, jobs, retryKeys := map[], map[], map[], map[];
    }

    /** The oldest waiting job whose time has come, if there is one. */
    method OldestClaimable(now: Time) returns (next: Option<JobId>)
      ensures next.None? ==> forall j <- jobs :: !Claimable(jobs[j], now)
      ensures next.Some? ==>
                && next.value in jobs && Claimable(jobs[next.value], now)
                && forall j <- jobs | Claimable(jobs[j], now) :: jobs[next.value].createdAt <= jobs[j].createdAt
    {
      next := None;
      var rest := jobs.Keys;
      while rest != {}
        invariant rest <= jobs.Keys
        invariant next.None? ==> forall j <- jobs | j !in rest :: !Claimable(jobs[j], now)
        invariant next.Some? ==>
                    && next.value in jobs && Claimable(jobs[next.value], now)
                    && forall j <- jobs | j !in rest && Claimable(jobs[j], now) ::
                         jobs[next.value].createdAt <= jobs[j].createdAt
        decreases rest
      {
        var j :| j in rest;
        if Claimable(jobs[j], now) && (next.None? || jobs[j].createdAt < jobs[next.value].createdAt) {
          next := Some(j);
        }
        rest := rest - {j};
      }
    }

    method ClaimNextJob(worker: string, now: Time, token: Token) returns (claimed: Option<JobId>)
      requires Linked(Contents())
      modifies this
      ensures retryKeys == old(retryKeys)
      ensures claimed.None? ==> unchanged(this) && forall j <- jobs :: !Claimable(jobs[j], now)
      ensures claimed.Some? ==>
                && claimed.value in old(jobs) && Claimable(old(jobs)[claimed.value], now)
                && (forall j <- old(jobs) | Claimable(old(jobs)[j], now) ::
                      old(jobs)[claimed.value].createdAt <= old(jobs)[j].createdAt)
                && Contents() == Claim(old(Contents()), claimed.value, worker, now, token)
    {
      claimed := OldestClaimable(now);
      if claimed.None? {
        return;
      }
      var j := claimed.value;
      var job := jobs[j];
      var steps := job.steps;
      for i := 0 to |steps|
        invariant |steps| == |job.steps|
        invariant forall k | 0 <= k < i :: steps[k] == StartStep(job.steps[k])
        invariant forall k | i <= k < |steps| :: steps[k] == job.steps[k]
      {
        if steps[i].status.Waiting? {
          steps := steps[i := steps[i].(status := Running, error := None)];
        }
      }
      assert steps == StartSteps(job.steps);
      assert Joined(old(Contents()), j);
      jobs := jobs[j := job.(
        status := Running, claimedBy := Some(worker), claimedAt := Some(now), token := Some(token),
        attempts := job.attempts + 1, steps := steps)];
      docs := docs[job.doc := docs[job.doc].(processing := Running)];
    }

    method RenewClaim(j: JobId, token: Token, now: Time) returns (renewed: bool)
      modifies this`jobs
      ensures Contents() == Renew(old(Contents()), j, token, now)
      ensures renewed <==> Holds(old(Contents()), j, token)
    {
      renewed := j in jobs && jobs[j].status.Running? && jobs[j].token == Some(token);
      if renewed {
        jobs := jobs[j := jobs[j].(claimedAt := Some(now))];
      }
    }

    method CloseRunningSteps(before: seq<Step>, status: JobStatus, error: Option<string>) returns (steps: seq<Step>)
      ensures steps == CloseSteps(before, status, error)
    {
      steps := before;
      for i := 0 to |steps|
        invariant |steps| == |before|
        invariant forall k | 0 <= k < i :: steps[k] == CloseStep(before[k], status, error)
        invariant forall k | i <= k < |steps| :: steps[k] == before[k]
      {
        if steps[i].status.Running? {
          steps := steps[i := steps[i].(status := status, error := error)];
        }
      }
    }

    /** The job gives up its claim and closes its running steps; its document follows. */
    method ReleaseJob(j: JobId, status: JobStatus, error: Option<string>, availableAt: Time)
      requires j in jobs && jobs[j].doc in docs
      modifies this`jobs, this`docs
      ensures jobs == old(jobs)[j := old(jobs)[j].(
                status := status, error := error, availableAt := availableAt,
                claimedBy := None, claimedAt := None, token := None,
                steps := CloseSteps(old(jobs)[j].steps, status, error))]
      ensures docs == SetProcessing(old(docs), old(jobs)[j].doc, status)
    {
      var job := jobs[j];
      var steps := CloseRunningSteps(job.steps, status, error);
      jobs := jobs[j := job.(status := status, error := error, availableAt := availableAt,
                             claimedBy := None, claimedAt := None, token := None, steps := steps)];
      docs := docs[job.doc := docs[job.doc].(processing := status)];
    }

    method RecoverJob(j: JobId, cutoff: Time, now: Time, ghost start: Queue, ghost ids: seq<JobId>)
      requires Linked(Contents()) && j in jobs && LeaseExpired(jobs[j], cutoff)
      requires Contents() == RecoverAll(start, ids, cutoff, now)
      modifies this`jobs, this`docs
      ensures Contents() == RecoverAll(start, ids + [j], cutoff, now)
      ensures Linked(Contents()) && jobs.Keys == old(jobs).Keys
      ensures forall k <- jobs | k != j :: jobs[k] == old(jobs)[k]
    {
      assert Joined(Contents(), j);
      var job := jobs[j];
      if job.attempts >= MAX_ATTEMPTS {
        ReleaseJob(j, Failed, Some("worker_crash_attempts_exhausted"), job.availableAt);
      } else {
        ReleaseJob(j, Waiting, None, now + Backoff(job.attempts));
      }
      assert Contents() == Recover(old(Contents()), j, cutoff, now);
      RecoverOneMore(start, ids, j, cutoff, now);
      forall k <- jobs ensures Joined(Contents(), k) {
        assert Joined(old(Contents()), k);
      }
    }

    /** Every job whose lease has run out is recovered exactly once. */
    method RecoverStaleJobs(now: Time, staleAfter: int) returns (count: nat, ghost ids: seq<JobId>)
      requires Linked(Contents())
      modifies this
      ensures count == |ids| && forall i, k | 0 <= i < k < |ids| :: ids[i] != ids[k]
      ensures forall j <- old(jobs) :: j in ids <==> LeaseExpired(old(jobs)[j], now - staleAfter)
      ensures forall j <- ids :: j in old(jobs)
      ensures Contents() == RecoverAll(old(Contents()), ids, now - staleAfter, now)
    {
      var cutoff := now - staleAfter;
      var stale := set j <- jobs | LeaseExpired(jobs[j], cutoff);
      count, ids := 0, [];
      while stale != {}
        invariant count == |ids| && Recovering(old(jobs), jobs, stale, ids, cutoff)
        invariant Linked(Contents()) && Contents() == RecoverAll(old(Contents()), ids, cutoff, now)
        decreases stale
      {
        var j :| j in stale;
        ghost var was := jobs;
        RecoverJob(j, cutoff, now, old(Contents()), ids);
        OneRecovered(old(jobs), was, jobs, stale, ids, j, cutoff);
        count, ids, stale := count + 1, ids + [j], stale - {j};
      }
    }

    /** The caller's copy is read before the row is; what counts is the row as it is now. */
    method FinishJob(j: JobId, outcome: JobStatus, held: Option<Token>, copyToken: Option<Token>,
                     error: Option<string>, transient: bool, now: Time) returns (accepted: bool)
      requires Linked(Contents())
      modifies this
      ensures accepted <==> FinishAccepted(old(Contents()), j, PresentedToken(held, copyToken))
      ensures Contents() == Finish(old(Contents()), j, outcome, PresentedToken(held, copyToken), error, transient, now)
    {
      var token := if held.Some? then held else copyToken;
      if j !in jobs {
        return false;
      }
      var job := jobs[j];
      assert Joined(Contents(), j);
      if token.None? || !job.status.Running? || job.token != token {
        return false;
      }
      CloseClaim(j, outcome, error, transient, now);
      MoveOn(docs[job.doc].app);
      return true;
    }

    method CloseClaim(j: JobId, outcome: JobStatus, error: Option<string>, transient: bool, now: Time)
      requires j in jobs && jobs[j].doc in docs
      modifies this`jobs, this`docs
      ensures Contents() == WithJobClosed(
                old(Contents()), j, FinishedJob(old(jobs)[j], outcome, error, transient, now), ReviewAfter(outcome))
    {
      var job := jobs[j];
      if transient && job.attempts < MAX_ATTEMPTS {
        ReleaseJob(j, Waiting, error, now + Backoff(job.attempts));
      } else {
        ReleaseJob(j, outcome, error, job.availableAt);
      }
      docs := docs[job.doc := docs[job.doc].(review := ReviewAfter(outcome))];
    }

    method MoveOn(app: AppId)
      requires app in apps
      modifies this`apps
      ensures Contents() == MovedOn(old(Contents()), app)
    {
      if !HasActiveJobs(Contents(), app) {
        var life := apps[app];
        if !life.state.Archived? && !life.state.ReviewComplete? {
          apps := apps[app := life.(state := AwaitingReview)];
        }
      }
    }

    method RetryJob(j: JobId, e: Envelope, chosen: set<StepName>) returns (outcome: Outcome)
      requires Linked(Contents())
      modifies this
      ensures (Contents(), retryKeys, outcome) == SubmitRetry(old(Contents()), old(retryKeys), j, e, chosen)
    {
      if j !in jobs {
        return NotFound;
      }
      assert Joined(old(Contents()), j);
      if !Mutable(apps[docs[jobs[j].doc].app].state) {
        return Conflict;
      }
      var replay := ReplayOf(retryKeys, KeyFor(e, j), e.requestHash);
      if !replay.NewRequest? {
        return if replay.Mismatch? then Conflict else Accepted;
      }
      outcome := ResetJob(j, chosen);
      if outcome.Accepted? {
        retryKeys := retryKeys[KeyFor(e, j) := IdemRecord(e.requestHash, jobs[j].doc)];
      }
    }

    /** The selected steps, and those that depend on them, wait again; so does the job. */
    method ResetJob(j: JobId, chosen: set<StepName>) returns (outcome: Outcome)
      requires Linked(Contents())
      modifies this`apps, this`docs, this`jobs
      ensures (Contents(), outcome) == Retry(old(Contents()), j, chosen)
    {
      if j !in jobs {
        return NotFound;
      }
      var job := jobs[j];
      assert Joined(old(Contents()), j);
      var app := docs[job.doc].app;
      if !Mutable(apps[app].state) || Active(job.status) || job.status.StepNotApplicable? {
        return Conflict;
      }
      if !(chosen <= AllowedSteps(job)) {
        return Conflict;
      }
      var selected := chosen;
      if ParsingOcr in selected || SealDetection in selected {
        selected := selected + {CandidateExtraction, Classification};
      }
      var steps := job.steps;
      for i := 0 to |steps|
        invariant |steps| == |job.steps|
        invariant forall k | 0 <= k < i :: steps[k] == SelectStep(job.steps[k], selected)
        invariant forall k | i <= k < |steps| :: steps[k] == job.steps[k]
      {
        if steps[i].name in selected {
          steps := steps[i := steps[i].(status := Waiting, error := None)];
        }
      }
      assert steps == SelectSteps(job.steps, selected);
      jobs := jobs[j := job.(status := Waiting, error := None, attempts := 0, steps := steps)];
      docs := docs[job.doc := docs[job.doc].(processing := Waiting, review := NotReady)];
      apps := apps[app := apps[app].(state := Processing)];
      return Accepted;
    }

    /** The reports of the application are checked last, together with its jobs. */
    method CompleteApplication(app: AppId, version: nat, reportsReady: bool, now: Time) returns (outcome: Outcome)
      modifies this`apps
      ensures (Contents(), outcome)
           == if reportsReady || app !in old(apps) then Complete(old(Contents()), app, version, now)
              else (old(Contents()), Conflict)
    {
      if app !in apps {
        return NotFound;
      }
      var life := apps[app];
      if life.version != version {
        return Conflict;
      }
      if !life.state.AwaitingReview? {
        return Conflict;
      }
      if HasActiveJobs(Contents(), app) || !reportsReady {
        return Conflict;
      }
      life := life.(state := ReviewComplete, completedAt := Some(now));
      apps := apps[app := life.(version := life.version + 1)];
      return Accepted;
    }

    method ReopenApplication(app: AppId, version: nat) returns (outcome: Outcome)
      modifies this`apps
      ensures (Contents(), outcome) == Reopen(old(Contents()), app, version)
    {
      if app !in apps {
        return NotFound;
      }
      var life := apps[app];
      if life.version != version || !(life.state.ReviewComplete? || life.state.Archived?) {
        return Conflict;
      }
      life := life.(state := AwaitingReview, completedAt := None, archivedAt := None);
      apps := apps[app := life.(version := life.version + 1)];
      return Accepted;
    }

    method ArchiveApplication(app: AppId, version: nat, now: Time) returns (outcome: Outcome)
      modifies this`apps
      ensures (Contents(), outcome) == Archive(old(Contents()), app, version, now)
    {
      if app !in apps {
        return NotFound;
      }
      var life := apps[app];
      if life.version != version {
        return Conflict;
      }
      if life.state.Processing? || HasActiveJobs(Contents(), app) {
        return Conflict;
      }
      if life.state.Archived? {
        return Conflict;
      }
      life := life.(state := Archived, archivedAt := Some(now));
      apps := apps[app := life.(version := life.version + 1)];
      return Accepted;
    }
  }
}
