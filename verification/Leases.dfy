/** How long a claim lasts: as long as its worker renews it in time, and no longer. */
module Leases {
  import opened JobOutcomes
  import opened JobQueue
  import opened QueueRuns
  import opened Requests
  import opened Wrappers

  /** The job runs under the token, and its claim was taken or last renewed at that time. */
  predicate HeldSince(q: Queue, j: JobId, t: Token, at: Time) {
    Joined(q, j) && Holds(q, j, t) && q.jobs[j].claimedAt == Some(at)
  }

  /** A recovery leaves a claim alone exactly when the claim is not older than its cutoff. */
  predicate LeftAlone(q: Queue, j: JobId, cutoff: Time, now: Time) { Recover(q, j, cutoff, now) == q }

  /**
   * A job that lost its claim waits for another worker, or has failed in its third attempt; so do the steps that
   * were running, and its document.
   */
  ghost predicate Released(before: Queue, after: Queue, j: JobId)
    requires Joined(before, j)
  {
    var job := before.jobs[j];
    var status := if job.attempts < 3 then Waiting else Failed;
    && j in after.jobs && after.jobs == before.jobs[j := after.jobs[j]] && after.apps == before.apps
    && ClosedAs(job, after.jobs[j], status,
                if job.attempts < 3 then None else Some("worker_crash_attempts_exhausted"))
    && after.docs == before.docs[job.doc := before.docs[job.doc].(processing := status)]
  }

  lemma LeaseIsExact(q: Queue, j: JobId, t: Token, at: Time, cutoff: Time, now: Time)
    requires HeldSince(q, j, t, at)
    ensures LeftAlone(q, j, cutoff, now) <==> cutoff <= at
    ensures at < cutoff ==> Released(q, Recover(q, j, cutoff, now), j)
  {
  }

  /** The holder of a token starts the lease anew; any other token changes nothing. */
  lemma RenewalStartsAnew(q: Queue, j: JobId, t: Token, now: Time, cutoff: Time, later: Time)
    requires Joined(q, j)
    ensures Holds(q, j, t) ==>
              && HeldSince(Renew(q, j, t, now), j, t, now)
              && (LeftAlone(Renew(q, j, t, now), j, cutoff, later) <==> cutoff <= now)
              && (now < cutoff ==> Released(Renew(q, j, t, now), Recover(Renew(q, j, t, now), j, cutoff, later), j))
    ensures Renew(q, j, t, now) == if Holds(q, j, t) then q.(jobs := q.jobs[j := q.jobs[j].(claimedAt := Some(now))])
                                   else q
  {
    if Holds(q, j, t) { LeaseIsExact(Renew(q, j, t, now), j, t, now, cutoff, later); }
  }

  /** Every step that was waiting runs, without an error; the others are as they were. */
  ghost predicate Started(before: seq<Step>, after: seq<Step>) {
    |after| == |before|
    && forall i | 0 <= i < |before| ::
         after[i] == if before[i].status == Waiting then Step(before[i].name, Running, None) else before[i]
  }

  /** A claim is given for a waiting job whose time has come, and nothing else; it starts a lease. */
  lemma ClaimStartsLease(q: Queue, j: JobId, worker: string, now: Time, t: Token, cutoff: Time, later: Time)
    requires Joined(q, j)
    ensures var after := Claim(q, j, worker, now, t);
            && (after != q <==> q.jobs[j].status.Waiting? && q.jobs[j].availableAt <= now)
            && (after != q ==>
                  && HeldSince(after, j, t, now)
                  && after.jobs[j].claimedBy == Some(worker) && after.jobs[j].attempts == q.jobs[j].attempts + 1
                  && Started(q.jobs[j].steps, after.jobs[j].steps)
                  && after.docs[q.jobs[j].doc].processing.Running?
                  && (LeftAlone(after, j, cutoff, later) <==> cutoff <= now)
                  && (now < cutoff ==> Released(after, Recover(after, j, cutoff, later), j)))
  {
    var job, after := q.jobs[j], Claim(q, j, worker, now, t);
    if after != q { LeaseIsExact(after, j, t, now, cutoff, later); }
    assert job.status.Waiting? && job.availableAt <= now ==> after.jobs[j].attempts == job.attempts + 1;
  }

  // ---------------------------------------------------------------------------
  // Whole runs
  // ---------------------------------------------------------------------------

  function Renewed(s: QueueStep, j: JobId, t: Token, at: Time): Time {
    if s.RenewClaim? && s.j == j && s.token == t then s.now else at
  }

  /** The time of the last renewal, for a claim taken at a given time. */
  function LastRenewal(steps: seq<QueueStep>, j: JobId, t: Token, at: Time): Time
    decreases |steps|
  {
    if steps == [] then at else LastRenewal(steps[1..], j, t, Renewed(steps[0], j, t, at))
  }

  predicate Late(s: QueueStep, j: JobId, at: Time) { s.RecoverJob? && s.j == j && at < s.cutoff }

  /** No recovery of the job comes with a cutoff after the last renewal before it. */
  predicate InTime(steps: seq<QueueStep>, j: JobId, t: Token, at: Time)
    decreases |steps|
  {
    steps == [] || (!Late(steps[0], j, at) && InTime(steps[1..], j, t, Renewed(steps[0], j, t, at)))
  }

  lemma OwnStepKeepsLease(q: Queue, s: QueueStep, j: JobId, t: Token, at: Time, after: Queue)
    requires Consistent(q) && WellFormed(s) && HeldSince(q, j, t, at) && JobStep(s) && s.j == j && after == Apply(q, s)
    ensures !Late(s, j, at) && !Finishes(q, s) ==> HeldSince(after, j, t, Renewed(s, j, t, at))
    ensures Recovers(q, s) <==> Late(s, j, at)
  {
  }

  lemma OtherJobKeepsLease(q: Queue, s: QueueStep, j: JobId, t: Token, at: Time, after: Queue)
    requires Consistent(q) && WellFormed(s) && HeldSince(q, j, t, at) && after == Apply(q, s)
    requires JobStep(s) && s.j != j
    ensures HeldSince(after, j, t, at)
  {
    JobsUntouched(q, s);
    if s.j in q.jobs {
      JobStepEffect(q, s);
    }
  }

  lemma OthersDoNotRecover(h: History, s: QueueStep, j: JobId, t: Token)
    requires Balanced(h) && j in h.q.jobs && t in TokenOf(h.q.jobs[j]) && t !in Closed(h.ledger)
    requires !(JobStep(s) && s.j == j)
    ensures t !in Record(h, s).recovered
  {
  }

  lemma UploadKeepsLease(q: Queue, s: QueueStep, j: JobId, t: Token, at: Time, after: Queue)
    requires HeldSince(q, j, t, at) && s.Upload? && after == Apply(q, s)
    ensures HeldSince(after, j, t, at)
  {
  }

  lemma LifecycleKeepsLease(q: Queue, s: QueueStep, j: JobId, t: Token, at: Time, after: Queue)
    requires HeldSince(q, j, t, at) && after == Apply(q, s)
    requires !JobStep(s) && !s.Upload? && !s.DeleteApplication?
    ensures HeldSince(after, j, t, at)
  {
  }

  lemma OthersKeepLease(h: History, s: QueueStep, j: JobId, t: Token, at: Time, after: Queue)
    requires Consistent(h.q) && Balanced(h) && Permitted(h, s) && HeldSince(h.q, j, t, at) && after == Apply(h.q, s)
    requires !(JobStep(s) && s.j == j) && t in TokenOf(h.q.jobs[j])
    ensures t in Closed(Record(h, s)) || HeldSince(after, j, t, at)
  {
    if s.DeleteApplication? {
      DeletionClosesOrLeaves(h, s, j, t);
    } else if JobStep(s) {
      OtherJobKeepsLease(h.q, s, j, t, at, after);
    } else if s.Upload? {
      UploadKeepsLease(h.q, s, j, t, at, after);
    } else {
      LifecycleKeepsLease(h.q, s, j, t, at, after);
    }
  }

  lemma StepKeepsLease(h: History, s: QueueStep, j: JobId, t: Token, at: Time)
    requires Consistent(h.q) && Balanced(h) && Permitted(h, s) && HeldSince(h.q, j, t, at)
    ensures t in Closed(Record(h, s)) || HeldSince(Apply(h.q, s), j, t, Renewed(s, j, t, at))
    ensures t in Record(h, s).recovered <==> Late(s, j, at)
  {
    assert t in TokenOf(h.q.jobs[j]) && TokenOf(h.q.jobs[j]) <= Tokens(h.q.jobs);
    if JobStep(s) && s.j == j {
      OwnStepKeepsLease(h.q, s, j, t, at, Apply(h.q, s));
    } else {
      OthersKeepLease(h, s, j, t, at, Apply(h.q, s));
      OthersDoNotRecover(h, s, j, t);
    }
  }

  /** A token that has been closed otherwise is never recovered. */
  lemma {:induction false} ClosedStaysAsItWas(h: History, steps: seq<QueueStep>, t: Token)
    requires Consistent(h.q) && Balanced(h) && PermittedRun(h, steps) && t in Closed(h.ledger)
    ensures t in Closed(Run(h, steps).ledger)
    ensures t in Run(h, steps).ledger.recovered <==> t in h.ledger.recovered
    decreases |steps|
  {
    if steps != [] {
      ApplyKeeps(h.q, steps[0]);
      AdvanceKeepsBalance(h, steps[0]);
      StepKeepsClosed(h, steps[0], t);
      ClosedStaysAsItWas(Advance(h, steps[0]), steps[1..], t);
    }
  }

  lemma StepKeepsClosed(h: History, s: QueueStep, t: Token)
    requires Balanced(h) && t in Closed(h.ledger)
    ensures t in Closed(Record(h, s)) && (t in Record(h, s).recovered <==> t in h.ledger.recovered)
  {
    if (Finishes(h.q, s) || Recovers(h.q, s)) && s.j in h.q.jobs {
      assert TokenOf(h.q.jobs[s.j]) <= Tokens(h.q.jobs);
    }
  }

  /**
   * A claim renewed in time is never taken from its worker, whatever else happens: it lasts, since its last
   * renewal, until the worker finishes the job or the application is deleted.
   */
  lemma {:induction false} RenewedClaimIsKept(h: History, steps: seq<QueueStep>, j: JobId, t: Token, at: Time)
    requires Consistent(h.q) && Balanced(h) && PermittedRun(h, steps) && HeldSince(h.q, j, t, at)
    ensures var w := Run(h, steps);
            t in Closed(w.ledger) || HeldSince(w.q, j, t, LastRenewal(steps, j, t, at))
    ensures InTime(steps, j, t, at) ==> t !in Run(h, steps).ledger.recovered
    decreases |steps|
  {
    assert t in TokenOf(h.q.jobs[j]) && TokenOf(h.q.jobs[j]) <= Tokens(h.q.jobs);
    if steps != [] {
      var next := Advance(h, steps[0]);
      ApplyKeeps(h.q, steps[0]);
      AdvanceKeepsBalance(h, steps[0]);
      StepKeepsLease(h, steps[0], j, t, at);
      if t in Closed(next.ledger) {
        ClosedStaysAsItWas(next, steps[1..], t);
      } else {
        RenewedClaimIsKept(next, steps[1..], j, t, Renewed(steps[0], j, t, at));
      }
    }
  }

  /** A silent worker loses its claim: a recovery whose cutoff is after the last renewal closes what is still open. */
  lemma SilentWorkerLosesClaim(
    h: History, steps: seq<QueueStep>, j: JobId, t: Token, at: Time, recovery: QueueStep)
    requires Consistent(h.q) && Balanced(h) && PermittedRun(h, steps) && HeldSince(h.q, j, t, at)
    requires Late(recovery, j, LastRenewal(steps, j, t, at))
    ensures var w := Run(h, steps);
            && t in Closed(Advance(w, recovery).ledger) && !Holds(Advance(w, recovery).q, j, t)
            && (t !in Closed(w.ledger) ==>
                  && t in Advance(w, recovery).ledger.recovered
                  && Joined(w.q, j) && Released(w.q, Advance(w, recovery).q, j))
  {
    RunsStayConsistent(h, steps);
    RenewedClaimIsKept(h, steps, j, t, at);
    var w, last := Run(h, steps), LastRenewal(steps, j, t, at);
    AdvanceKeepsBalance(w, recovery);
    if t in Closed(w.ledger) {
      StepKeepsClosed(w, recovery, t);
    } else {
      StepKeepsLease(w, recovery, j, t, last);
      LeaseIsExact(w.q, j, t, last, recovery.cutoff, recovery.now);
    }
    var after := Advance(w, recovery);
    assert j in after.q.jobs ==> TokenOf(after.q.jobs[j]) <= Tokens(after.q.jobs);
  }
}
