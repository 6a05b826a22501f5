/** Whole runs of the queue: claims are conserved, closed tokens are fenced, and retries are bounded. */
module QueueRuns {
  import opened JobQueue
  import opened Requests
  import opened Wrappers

  datatype QueueStep =
    | ClaimJob(j: JobId, worker: string, now: Time, token: Token)
    | RenewClaim(j: JobId, token: Token, now: Time)
    | RecoverJob(j: JobId, cutoff: Time, now: Time)
    | FinishJob(j: JobId, outcome: JobStatus, held: Option<Token>, copyToken: Option<Token>,
                error: Option<string>, transient: bool, now: Time)
    | StoreStep(j: JobId, i: nat, status: JobStatus, error: Option<string>)
    | RetryJob(j: JobId, selected: set<StepName>)
    | Upload(d: DocId, doc: Doc, j: JobId, error: Option<string>, now: Time)
    | CreateApplication(app: AppId)
    | CompleteApplication(app: AppId, version: nat, now: Time)
    | ReopenApplication(app: AppId, version: nat)
    | ArchiveApplication(app: AppId, version: nat, now: Time)
    | TouchApplication(app: AppId, version: nat)
    | DeleteApplication(app: AppId)

  function Apply(q: Queue, s: QueueStep): Queue {
    match s
    case ClaimJob(j, worker, now, token) => Claim(q, j, worker, now, token)
    case RenewClaim(j, token, now) => Renew(q, j, token, now)
    case RecoverJob(j, cutoff, now) => Recover(q, j, cutoff, now)
    case FinishJob(j, outcome, held, copyToken, error, transient, now) =>
      Finish(q, j, outcome, PresentedToken(held, copyToken), error, transient, now)
    case StoreStep(j, i, status, error) => WriteStep(q, j, i, status, error)
    case RetryJob(j, selected) => Retry(q, j, selected).0
    case Upload(d, doc, j, error, now) => AddDocument(q, d, doc, j, error, now)
    case CreateApplication(app) => CreateApp(q, app)
    case CompleteApplication(app, version, now) => Complete(q, app, version, now).0
    case ReopenApplication(app, version) => Reopen(q, app, version).0
    case ArchiveApplication(app, version, now) => Archive(q, app, version, now).0
    case TouchApplication(app, version) => BumpVersion(q, app, version).0
    case DeleteApplication(app) => DeleteApp(q, app)
  }

  /** What workers and uploads pass in: final outcomes, transient only for failures. */
  predicate WellFormed(s: QueueStep) {
    && (s.FinishJob? ==> IsOutcome(s.outcome) && (s.transient ==> s.outcome.Failed?))
    && (s.Upload? ==> s.doc.review == ReviewAtUpload(s.doc.processing))
  }

  lemma ApplyKeeps(q: Queue, s: QueueStep)
    requires Consistent(q) && WellFormed(s)
    ensures Consistent(Apply(q, s))
  {
    match s
    case ClaimJob(j, worker, now, token) => ClaimKeeps(q, j, worker, now, token);
    case RenewClaim(j, token, now) => RenewKeeps(q, j, token, now);
    case RecoverJob(j, cutoff, now) => RecoverKeeps(q, j, cutoff, now);
    case FinishJob(j, outcome, held, copyToken, error, transient, now) =>
      FinishKeeps(q, j, outcome, PresentedToken(held, copyToken), error, transient, now);
    case StoreStep(j, i, status, error) => WriteStepKeeps(q, j, i, status, error);
    case RetryJob(j, selected) => RetryKeeps(q, j, selected);
    case Upload(d, doc, j, error, now) => AddDocumentKeeps(q, d, doc, j, error, now);
    case CreateApplication(app) => CreateAppKeeps(q, app);
    case CompleteApplication(app, version, now) => CompleteKeeps(q, app, version, now);
    case ReopenApplication(app, version) => ReopenKeeps(q, app, version);
    case ArchiveApplication(app, version, now) => ArchiveKeeps(q, app, version, now);
    case TouchApplication(app, version) => BumpVersionKeeps(q, app, version);
    case DeleteApplication(app) => DeleteKeeps(q, app);
  }

  // ---------------------------------------------------------------------------
  // Claims
  // ---------------------------------------------------------------------------

  predicate Claims(q: Queue, s: QueueStep) { s.ClaimJob? && Joined(q, s.j) && Claimable(q.jobs[s.j], s.now) }

  predicate Recovers(q: Queue, s: QueueStep) { s.RecoverJob? && Joined(q, s.j) && LeaseExpired(q.jobs[s.j], s.cutoff) }

  predicate Finishes(q: Queue, s: QueueStep) {
    s.FinishJob? && FinishAccepted(q, s.j, PresentedToken(s.held, s.copyToken))
  }

  function TokenOf(job: Job): set<Token> {
    if job.status.Running? && job.token.Some? then {job.token.value} else {}
  }

  ghost function Tokens(jobs: map<JobId, Job>): set<Token> {
    set j <- jobs, t <- TokenOf(jobs[j]) :: t
  }

  ghost predicate DistinctTokens(jobs: map<JobId, Job>) {
    forall i, j | i in jobs && j in jobs && i != j :: TokenOf(jobs[i]) !! TokenOf(jobs[j])
  }

  /**
   * History of the claims: every token ever issued, and those whose claim was closed by an accepted
   * finish, by a recovery, or by the deletion of its application. Also the applications left in
   * processing without an active job.
   */
  datatype Ledger = Ledger(
    issued: set<Token>, finished: set<Token>, recovered: set<Token>, deleted: set<Token>, stranded: set<AppId>)

  datatype History = History(q: Queue, ledger: Ledger)

  function Closed(l: Ledger): set<Token> { l.finished + l.recovered + l.deleted }

  function AppOf(q: Queue, j: JobId): AppId
    requires Joined(q, j)
  {
    q.docs[q.jobs[j].doc].app
  }

  ghost function Record(h: History, s: QueueStep): Ledger {
    var q, l, after := h.q, h.ledger, Apply(h.q, s);
    if Claims(q, s) then l.(issued := l.issued + {s.token})
    else if Finishes(q, s) then l.(finished := l.finished + TokenOf(q.jobs[s.j]))
    else if Recovers(q, s) then
      l.(recovered := l.recovered + TokenOf(q.jobs[s.j]),
         stranded := if Exhausted(q.jobs[s.j]) && !HasActiveJobs(after, AppOf(q, s.j))
                     then l.stranded + {AppOf(q, s.j)} else l.stranded)
    else if s.RetryJob? && Retry(q, s.j, s.selected).1.Accepted? then l.(stranded := l.stranded - {AppOf(q, s.j)})
    else if s.Upload? && after != q then l.(stranded := l.stranded - {s.doc.app})
    else if s.DeleteApplication? then
      l.(deleted := l.deleted + (Tokens(q.jobs) - Tokens(after.jobs)), stranded := l.stranded - {s.app})
    else l
  }

  ghost function Advance(h: History, s: QueueStep): History {
    History(Apply(h.q, s), Record(h, s))
  }

  /** Each claim token is a new one. */
  ghost predicate Permitted(h: History, s: QueueStep) {
    WellFormed(s) && (s.ClaimJob? ==> s.token !in h.ledger.issued)
  }

  /** Every issued token is closed in exactly one way or belongs to exactly one running job. */
  ghost predicate Balanced(h: History) {
    var l, running := h.ledger, Tokens(h.q.jobs);
    && l.issued == l.finished + l.recovered + l.deleted + running
    && l.finished !! l.recovered && (l.finished + l.recovered) !! l.deleted && Closed(l) !! running
    && DistinctTokens(h.q.jobs)
  }

  lemma ReplaceJob(jobs: map<JobId, Job>, j: JobId, job: Job)
    requires DistinctTokens(jobs) && j in jobs
    requires TokenOf(job) !! Tokens(jobs) || TokenOf(job) == TokenOf(jobs[j])
    ensures DistinctTokens(jobs[j := job])
    ensures Tokens(jobs[j := job]) == Tokens(jobs) - TokenOf(jobs[j]) + TokenOf(job)
    ensures TokenOf(jobs[j]) <= Tokens(jobs)
  {
    var after := jobs[j := job];
    forall t ensures t in Tokens(after) <==> t in Tokens(jobs) - TokenOf(jobs[j]) + TokenOf(job) {
      if t in Tokens(jobs) && t !in TokenOf(jobs[j]) {
        var k :| k in jobs && t in TokenOf(jobs[k]);
        assert t in TokenOf(after[k]);
      }
      if t in TokenOf(job) {
        assert t in TokenOf(after[j]);
      }
    }
    forall i, k | i in after && k in after && i != k ensures TokenOf(after[i]) !! TokenOf(after[k]) {
      assert i != j ==> TokenOf(jobs[i]) <= Tokens(jobs);
      assert k != j ==> TokenOf(jobs[k]) <= Tokens(jobs);
    }
  }

  lemma FewerJobs(jobs: map<JobId, Job>, after: map<JobId, Job>)
    requires DistinctTokens(jobs) && forall j <- after :: j in jobs && after[j] == jobs[j]
    ensures DistinctTokens(after) && Tokens(after) <= Tokens(jobs)
  {
    forall t <- Tokens(after) ensures t in Tokens(jobs) {
      var k :| k in after && t in TokenOf(after[k]);
      assert t in TokenOf(jobs[k]);
    }
  }

  lemma MoreJobs(jobs: map<JobId, Job>, j: JobId, job: Job)
    requires DistinctTokens(jobs) && j !in jobs && TokenOf(job) == {}
    ensures DistinctTokens(jobs[j := job]) && Tokens(jobs[j := job]) == Tokens(jobs)
  {
    var after := jobs[j := job];
    FewerJobs(jobs, jobs);
    forall t <- Tokens(jobs) ensures t in Tokens(after) {
      var k :| k in jobs && t in TokenOf(jobs[k]);
      assert t in TokenOf(after[k]);
    }
    forall t <- Tokens(after) ensures t in Tokens(jobs) {
      var k :| k in after && t in TokenOf(after[k]);
    }
  }

  /** Steps about one job that is already there. */
  predicate JobStep(s: QueueStep) {
    s.ClaimJob? || s.RenewClaim? || s.RecoverJob? || s.FinishJob? || s.StoreStep? || s.RetryJob?
  }

  function TokenAfter(q: Queue, s: QueueStep): set<Token>
    requires JobStep(s) && s.j in q.jobs
  {
    if Claims(q, s) then {s.token}
    else if Finishes(q, s) || Recovers(q, s) then {}
    else TokenOf(q.jobs[s.j])
  }

  lemma TokenChange(q: Queue, s: QueueStep)
    requires Consistent(q) && WellFormed(s) && JobStep(s) && s.j in q.jobs
    ensures var jobs := Apply(q, s).jobs;
            && s.j in jobs && jobs == q.jobs[s.j := jobs[s.j]]
            && TokenOf(jobs[s.j]) == TokenAfter(q, s)
            && (Claims(q, s) ==> TokenOf(q.jobs[s.j]) == {})
  {
    assert JobConsistent(q.jobs[s.j]);
  }

  lemma JobsUntouched(q: Queue, s: QueueStep)
    ensures JobStep(s) && s.j !in q.jobs ==> Apply(q, s) == q
    ensures !JobStep(s) && !s.Upload? && !s.DeleteApplication? ==>
              Apply(q, s).jobs == q.jobs && Apply(q, s).docs == q.docs
  {
  }

  lemma AdvanceKeepsBalance(h: History, s: QueueStep)
    requires Consistent(h.q) && Balanced(h) && Permitted(h, s)
    ensures Balanced(Advance(h, s))
  {
    var q, after := h.q, Apply(h.q, s);
    JobsUntouched(q, s);
    if s.DeleteApplication? {
      FewerJobs(q.jobs, after.jobs);
    } else if s.Upload? && after != q {
      MoreJobs(q.jobs, s.j, after.jobs[s.j]);
    } else if JobStep(s) && s.j in q.jobs {
      TokenChange(q, s);
      JobStepKeepsBalance(h, s, after.jobs[s.j]);
    }
  }

  lemma JobStepKeepsBalance(h: History, s: QueueStep, job: Job)
    requires Balanced(h) && Permitted(h, s) && JobStep(s) && s.j in h.q.jobs
    requires Apply(h.q, s).jobs == h.q.jobs[s.j := job]
    requires TokenOf(job) == TokenAfter(h.q, s)
    requires Claims(h.q, s) ==> TokenOf(h.q.jobs[s.j]) == {}
    ensures Balanced(Advance(h, s))
  {
    ReplaceJob(h.q.jobs, s.j, job);
    var l, after := h.ledger, Record(h, s);
    assert after.deleted == l.deleted;
    if Claims(h.q, s) {
      assert after.issued == l.issued + {s.token};
    } else if Finishes(h.q, s) {
      assert after.finished == l.finished + TokenOf(h.q.jobs[s.j]) && after.recovered == l.recovered;
    } else if Recovers(h.q, s) {
      assert after.recovered == l.recovered + TokenOf(h.q.jobs[s.j]) && after.finished == l.finished;
    }
  }

  // ---------------------------------------------------------------------------
  // Counting, and the fence
  // ---------------------------------------------------------------------------

  ghost function RunningJobs(q: Queue): set<JobId> {
    set j <- q.jobs | q.jobs[j].status.Running?
  }

  ghost function TokensOf(jobs: map<JobId, Job>, js: set<JobId>): set<Token>
    requires js <= jobs.Keys
  {
    set j <- js, t <- TokenOf(jobs[j]) :: t
  }

  lemma {:induction false} OneTokenEach(jobs: map<JobId, Job>, js: set<JobId>)
    requires DistinctTokens(jobs) && js <= jobs.Keys
    requires forall j <- js :: jobs[j].status.Running? && jobs[j].token.Some?
    ensures |TokensOf(jobs, js)| == |js|
  {
    if js != {} {
      var j :| j in js;
      var rest := js - {j};
      OneTokenEach(jobs, rest);
      assert TokensOf(jobs, js) == TokensOf(jobs, rest) + TokenOf(jobs[j]);
      assert TokensOf(jobs, rest) !! TokenOf(jobs[j]);
    }
  }

  /** Claims = accepted finishes + recoveries + claims deleted with their application + jobs now running. */
  lemma ClaimsAreConserved(h: History)
    requires Consistent(h.q) && Balanced(h)
    ensures |h.ledger.issued|
         == |h.ledger.finished| + |h.ledger.recovered| + |h.ledger.deleted| + |RunningJobs(h.q)|
  {
    var l, running := h.ledger, RunningJobs(h.q);
    forall j <- running ensures h.q.jobs[j].token.Some? {
      assert JobConsistent(h.q.jobs[j]);
    }
    OneTokenEach(h.q.jobs, running);
    assert Tokens(h.q.jobs) == TokensOf(h.q.jobs, running);
    assert |l.issued| == |l.finished + l.recovered + l.deleted| + |Tokens(h.q.jobs)|;
    assert |l.finished + l.recovered + l.deleted| == |l.finished + l.recovered| + |l.deleted|;
  }

  /** A finish or a renewal on the strength of a token, be it only the one in the worker's copy of the row. */
  predicate ActsWith(s: QueueStep, t: Token) {
    || (s.FinishJob? && PresentedToken(s.held, s.copyToken) == Some(t))
    || (s.RenewClaim? && s.token == t)
  }

  /** The holder of a closed token can no longer change a job, its lease, its document or its application. */
  lemma ClosedTokenIsFenced(h: History, t: Token, s: QueueStep)
    requires Balanced(h) && t in Closed(h.ledger) && ActsWith(s, t)
    ensures Apply(h.q, s) == h.q
  {
    assert s.j in h.q.jobs ==> TokenOf(h.q.jobs[s.j]) <= Tokens(h.q.jobs);
  }

  /** A finish is accepted exactly when the job runs under the token it presents; otherwise nothing changes. */
  lemma FinishIsAcceptedExactly(q: Queue, s: QueueStep)
    requires Consistent(q) && WellFormed(s) && s.FinishJob?
    ensures Apply(q, s) != q <==>
              && s.j in q.jobs && q.jobs[s.j].status.Running?
              && q.jobs[s.j].token == if s.held.Some? then s.held else s.copyToken
  {
    if s.j in q.jobs {
      assert JobConsistent(q.jobs[s.j]) && JobShown(q, s.j);
    }
  }

  ghost predicate PermittedRun(h: History, steps: seq<QueueStep>)
    decreases |steps|
  {
    steps == [] || (Permitted(h, steps[0]) && PermittedRun(Advance(h, steps[0]), steps[1..]))
  }

  ghost function Run(h: History, steps: seq<QueueStep>): History
    decreases |steps|
  {
    if steps == [] then h else Run(Advance(h, steps[0]), steps[1..])
  }

  const EMPTY := History(Queue(map[], map[], map[]), Ledger({}, {}, {}, {}, {}))

  /** In every interleaving of workers, uploads and users, from the empty database or any good state. */
  lemma {:induction false} RunsStayConsistent(h: History, steps: seq<QueueStep>)
    requires Consistent(h.q) && Balanced(h) && PermittedRun(h, steps)
    ensures Consistent(Run(h, steps).q) && Balanced(Run(h, steps))
    ensures Closed(h.ledger) <= Closed(Run(h, steps).ledger)
    decreases |steps|
  {
    if steps != [] {
      ApplyKeeps(h.q, steps[0]);
      AdvanceKeepsBalance(h, steps[0]);
      RunsStayConsistent(Advance(h, steps[0]), steps[1..]);
    }
  }

  /** A worker that lost its claim stays fenced for ever, whatever happens in between. */
  lemma FencedForEver(h: History, steps: seq<QueueStep>, t: Token, late: QueueStep)
    requires Consistent(h.q) && Balanced(h) && PermittedRun(h, steps) && t in Closed(h.ledger) && ActsWith(late, t)
    ensures Apply(Run(h, steps).q, late) == Run(h, steps).q
  {
    RunsStayConsistent(h, steps);
    ClosedTokenIsFenced(Run(h, steps), t, late);
  }

  /** The token of a running claim stays with its job until the claim is closed. */
  lemma {:induction false} ClaimStaysUntilClosed(h: History, steps: seq<QueueStep>, j: JobId, t: Token)
    requires Consistent(h.q) && Balanced(h) && PermittedRun(h, steps)
    requires t in Closed(h.ledger) || (j in h.q.jobs && t in TokenOf(h.q.jobs[j]))
    ensures var w := Run(h, steps); t in Closed(w.ledger) || (j in w.q.jobs && t in TokenOf(w.q.jobs[j]))
    decreases |steps|
  {
    if steps != [] {
      ApplyKeeps(h.q, steps[0]);
      AdvanceKeepsBalance(h, steps[0]);
      if t !in Closed(h.ledger) {
        StepClosesOrLeaves(h, steps[0], j, t);
      }
      ClaimStaysUntilClosed(Advance(h, steps[0]), steps[1..], j, t);
    }
  }

  lemma StepClosesOrLeaves(h: History, s: QueueStep, j: JobId, t: Token)
    requires Consistent(h.q) && Balanced(h) && Permitted(h, s) && j in h.q.jobs && t in TokenOf(h.q.jobs[j])
    ensures var w := Advance(h, s); t in Closed(w.ledger) || (j in w.q.jobs && t in TokenOf(w.q.jobs[j]))
  {
    JobsUntouched(h.q, s);
    if JobStep(s) && s.j in h.q.jobs {
      TokenChange(h.q, s);
    } else if s.DeleteApplication? {
      DeletionClosesOrLeaves(h, s, j, t);
    }
  }

  lemma DeletionClosesOrLeaves(h: History, s: QueueStep, j: JobId, t: Token)
    requires Balanced(h) && s.DeleteApplication? && j in h.q.jobs && t in TokenOf(h.q.jobs[j])
    ensures var w := Advance(h, s); t in Closed(w.ledger) || (j in w.q.jobs && t in TokenOf(w.q.jobs[j]))
  {
    var after := Apply(h.q, s);
    assert t in Tokens(h.q.jobs);
    if j !in after.jobs {
      forall k <- after.jobs ensures t !in TokenOf(after.jobs[k]) {
        assert after.jobs[k] == h.q.jobs[k];
      }
      assert t !in Tokens(after.jobs);
    }
  }

  /**
   * So a worker that finishes the job it claimed is heard exactly as long as its claim is open, whether it
   * passes its token or leaves that to its copy of the row.
   */
  lemma WorkerIsHeardUntilClosed(h: History, claim: QueueStep, steps: seq<QueueStep>, late: QueueStep)
    requires Consistent(h.q) && Balanced(h) && Permitted(h, claim) && Claims(h.q, claim)
    requires PermittedRun(Advance(h, claim), steps)
    requires WellFormed(late) && late.FinishJob? && late.j == claim.j && ActsWith(late, claim.token)
    ensures var w := Run(Advance(h, claim), steps);
            Apply(w.q, late) != w.q <==> claim.token !in Closed(w.ledger)
  {
    var first := Advance(h, claim);
    ApplyKeeps(h.q, claim);
    AdvanceKeepsBalance(h, claim);
    ClaimIssues(h, claim);
    RunsStayConsistent(first, steps);
    ClaimStaysUntilClosed(first, steps, claim.j, claim.token);
    var w := Run(first, steps);
    FinishIsAcceptedExactly(w.q, late);
    if claim.token in Closed(w.ledger) {
      ClosedTokenIsFenced(w, claim.token, late);
    }
  }

  lemma ClaimIssues(h: History, claim: QueueStep)
    requires Claims(h.q, claim)
    ensures claim.j in Advance(h, claim).q.jobs && claim.token in TokenOf(Advance(h, claim).q.jobs[claim.j])
  {
  }

  // ---------------------------------------------------------------------------
  // Bounded retries
  // ---------------------------------------------------------------------------

  /** Claims a job can still get before a user retries it. */
  function ClaimsLeft(q: Queue, j: JobId): nat {
    if j in q.jobs && Active(q.jobs[j].status) && q.jobs[j].attempts < MAX_ATTEMPTS
    then MAX_ATTEMPTS - q.jobs[j].attempts else 0
  }

  /** Changes of hands a job can still go through: each claim, finish and recovery uses one up. */
  function Budget(q: Queue, j: JobId): nat {
    2 * ClaimsLeft(q, j) + if j in q.jobs && q.jobs[j].status.Running? then 1 else 0
  }

  predicate Moves(q: Queue, s: QueueStep, j: JobId) {
    (Claims(q, s) || Finishes(q, s) || Recovers(q, s)) && s.j == j
  }

  predicate LeavesAlone(s: QueueStep, j: JobId) {
    !(s.RetryJob? && s.j == j) && !(s.Upload? && s.j == j)
  }

  lemma StepUsesBudget(q: Queue, s: QueueStep, j: JobId)
    requires Consistent(q) && WellFormed(s) && LeavesAlone(s, j)
    ensures (if Moves(q, s, j) then 1 else 0) + Budget(Apply(q, s), j) <= Budget(q, j)
    ensures (if Claims(q, s) && s.j == j then 1 else 0) + ClaimsLeft(Apply(q, s), j) <= ClaimsLeft(q, j)
  {
    JobsUntouched(q, s);
    if JobStep(s) && s.j in q.jobs {
      JobStepUsesBudget(q, s, j, Apply(q, s));
    }
  }

  lemma JobStepUsesBudget(q: Queue, s: QueueStep, j: JobId, after: Queue)
    requires Consistent(q) && WellFormed(s) && LeavesAlone(s, j) && JobStep(s) && s.j in q.jobs && after == Apply(q, s)
    ensures (if Moves(q, s, j) then 1 else 0) + Budget(after, j) <= Budget(q, j)
    ensures (if Claims(q, s) && s.j == j then 1 else 0) + ClaimsLeft(after, j) <= ClaimsLeft(q, j)
  {
    TokenChange(q, s);
    if j in q.jobs { assert JobConsistent(q.jobs[j]); }
  }

  ghost function MovesIn(q: Queue, steps: seq<QueueStep>, j: JobId): nat
    decreases |steps|
  {
    if steps == [] then 0
    else (if Moves(q, steps[0], j) then 1 else 0) + MovesIn(Apply(q, steps[0]), steps[1..], j)
  }

  ghost function ClaimsIn(q: Queue, steps: seq<QueueStep>, j: JobId): nat
    decreases |steps|
  {
    if steps == [] then 0
    else (if Claims(q, steps[0]) && steps[0].j == j then 1 else 0) + ClaimsIn(Apply(q, steps[0]), steps[1..], j)
  }

  /** Between user retries a job changes hands at most 6 times, and is claimed at most 3 times. */
  lemma {:induction false} RetriesAreBounded(q: Queue, steps: seq<QueueStep>, j: JobId)
    requires Consistent(q)
    requires forall i | 0 <= i < |steps| :: WellFormed(steps[i]) && LeavesAlone(steps[i], j)
    ensures MovesIn(q, steps, j) <= Budget(q, j) <= 6
    ensures ClaimsIn(q, steps, j) <= ClaimsLeft(q, j) <= 3
    decreases |steps|
  {
    if j in q.jobs { assert JobConsistent(q.jobs[j]); }
    if steps != [] {
      StepUsesBudget(q, steps[0], j);
      ApplyKeeps(q, steps[0]);
      RetriesAreBounded(Apply(q, steps[0]), steps[1..], j);
    }
  }

  /** A job that goes back to waiting is available again after one or two seconds. */
  lemma BackoffIsShort(q: Queue, s: QueueStep)
    requires Consistent(q) && WellFormed(s) && (Finishes(q, s) || Recovers(q, s))
    requires Apply(q, s).jobs[s.j].status.Waiting?
    ensures Apply(q, s).jobs[s.j].availableAt == s.now + (if q.jobs[s.j].attempts == 1 then 1 else 2)
  {
    assert JobConsistent(q.jobs[s.j]);
    assert Backoff(2) == 2;
  }

  // ---------------------------------------------------------------------------
  // Processing without an active job
  // ---------------------------------------------------------------------------

  /**
   * An application is in processing without an active job exactly when an exhausted recovery took its last
   * active job and nothing has come in or been retried since.
   */
  ghost predicate StrandedExactly(h: History) {
    && h.ledger.stranded <= h.q.apps.Keys
    && forall a <- h.q.apps :: a in h.ledger.stranded <==> h.q.apps[a].state.Processing? && !HasActiveJobs(h.q, a)
  }

  /** A change to one job of one application is not seen by the others. */
  lemma OtherApplications(q: Queue, after: Queue, j: JobId, a: AppId)
    requires Joined(q, j) && j in after.jobs && after.jobs == q.jobs[j := after.jobs[j]]
    requires after.jobs[j].doc == q.jobs[j].doc && after.docs.Keys == q.docs.Keys
    requires forall d <- q.docs :: after.docs[d].app == q.docs[d].app
    ensures a != AppOf(q, j) ==> HasActiveJobs(after, a) == HasActiveJobs(q, a)
    ensures Active(after.jobs[j].status) ==> HasActiveJobs(after, AppOf(q, j))
    ensures Active(q.jobs[j].status) == Active(after.jobs[j].status) ==> HasActiveJobs(after, a) == HasActiveJobs(q, a)
  {
    forall k | k in q.jobs && (k != j || Active(q.jobs[j].status) == Active(after.jobs[j].status))
      ensures IsActiveJobOf(after, a, k) == IsActiveJobOf(q, a, k)
    {
    }
    assert IsActiveJobOf(after, AppOf(q, j), j) <==> Active(after.jobs[j].status);
    assert a != AppOf(q, j) ==> !IsActiveJobOf(after, a, j) && !IsActiveJobOf(q, a, j);
  }

  predicate RecoversExhausted(q: Queue, s: QueueStep) {
    Recovers(q, s) && Exhausted(q.jobs[s.j])
  }

  predicate Retries(q: Queue, s: QueueStep) { s.RetryJob? && Retry(q, s.j, s.selected).1.Accepted? }

  lemma JobStepEffect(q: Queue, s: QueueStep)
    requires Consistent(q) && WellFormed(s) && JobStep(s) && s.j in q.jobs
    ensures var after := Apply(q, s);
            && Joined(q, s.j) && s.j in after.jobs && after.jobs == q.jobs[s.j := after.jobs[s.j]]
            && after.jobs[s.j].doc == q.jobs[s.j].doc && after.docs.Keys == q.docs.Keys
            && (forall d <- q.docs :: after.docs[d].app == q.docs[d].app)
            && after.apps.Keys == q.apps.Keys
            && (forall a <- q.apps | a != AppOf(q, s.j) :: after.apps[a] == q.apps[a])
  {
    assert JobShown(q, s.j);
    TokenChange(q, s);
    DocumentsStay(q, s);
  }

  lemma DocumentsStay(q: Queue, s: QueueStep)
    requires JobStep(s) && Joined(q, s.j)
    ensures Apply(q, s).docs.Keys == q.docs.Keys
    ensures forall d <- q.docs :: Apply(q, s).docs[d] == q.docs[d].(
              processing := Apply(q, s).docs[d].processing, review := Apply(q, s).docs[d].review)
    ensures s.j in Apply(q, s).jobs && Apply(q, s).jobs[s.j].doc == q.jobs[s.j].doc
  {
    var d := q.jobs[s.j].doc;
    match s
    case ClaimJob(j, worker, now, token) =>
    case RenewClaim(j, token, now) =>
    case RecoverJob(j, cutoff, now) =>
    case FinishJob(j, outcome, held, copyToken, error, transient, now) =>
    case StoreStep(j, i, status, error) =>
    case RetryJob(j, selected) =>
  }

  lemma JobStepStates(q: Queue, s: QueueStep)
    requires Consistent(q) && WellFormed(s) && JobStep(s) && s.j in q.jobs && Joined(q, s.j)
    ensures var before, after, app := q.jobs[s.j], Apply(q, s), AppOf(q, s.j);
            && s.j in after.jobs && app in after.apps
            && (Finishes(q, s) ==>
                  && Active(before.status)
                  && after.apps[app].state == if HasActiveJobs(after, app) then Processing else AwaitingReview)
            && (Retries(q, s) ==> Active(after.jobs[s.j].status) && after.apps[app].state.Processing?)
            && (!Finishes(q, s) && !Retries(q, s) ==> after.apps == q.apps)
            && (!Finishes(q, s) && !Retries(q, s) && !RecoversExhausted(q, s) ==>
                  Active(before.status) == Active(after.jobs[s.j].status))
            && (RecoversExhausted(q, s) ==> Active(before.status))
  {
    var after, app := Apply(q, s), AppOf(q, s.j);
    assert JobConsistent(q.jobs[s.j]) && JobShown(q, s.j);
    forall k <- after.jobs
      ensures IsActiveJobOf(Queue(q.apps, after.docs, after.jobs), app, k) == IsActiveJobOf(after, app, k)
    {
    }
  }

  lemma JobStepKeepsStranded(h: History, s: QueueStep)
    requires Consistent(h.q) && WellFormed(s) && StrandedExactly(h) && JobStep(s) && s.j in h.q.jobs
    ensures StrandedExactly(Advance(h, s))
  {
    JobStepEffect(h.q, s);
    JobStepStates(h.q, s);
    StrandedAfterJobStep(h, s, Apply(h.q, s), Record(h, s).stranded);
  }

  lemma StrandedAfterJobStep(h: History, s: QueueStep, after: Queue, stranded: set<AppId>)
    requires Consistent(h.q) && StrandedExactly(h) && JobStep(s) && Joined(h.q, s.j)
    requires s.j in after.jobs && after.jobs == h.q.jobs[s.j := after.jobs[s.j]]
    requires after.jobs[s.j].doc == h.q.jobs[s.j].doc && after.docs.Keys == h.q.docs.Keys
    requires forall d <- h.q.docs :: after.docs[d].app == h.q.docs[d].app
    requires after.apps.Keys == h.q.apps.Keys
    requires var app := AppOf(h.q, s.j);
             && (forall a <- h.q.apps | a != app :: after.apps[a] == h.q.apps[a])
             && stranded == (if RecoversExhausted(h.q, s) && !HasActiveJobs(after, app) then h.ledger.stranded + {app}
                             else if Retries(h.q, s) then h.ledger.stranded - {app} else h.ledger.stranded)
             && (Finishes(h.q, s) ==>
                   && Active(h.q.jobs[s.j].status)
                   && after.apps[app].state == if HasActiveJobs(after, app) then Processing else AwaitingReview)
             && (Retries(h.q, s) ==> Active(after.jobs[s.j].status) && after.apps[app].state.Processing?)
             && (!Finishes(h.q, s) && !Retries(h.q, s) ==> after.apps == h.q.apps)
             && (!Finishes(h.q, s) && !Retries(h.q, s) && !RecoversExhausted(h.q, s) ==>
                   Active(h.q.jobs[s.j].status) == Active(after.jobs[s.j].status))
             && (RecoversExhausted(h.q, s) ==> Active(h.q.jobs[s.j].status))
    ensures StrandedExactly(History(after, h.ledger.(stranded := stranded)))
  {
    var q, app := h.q, AppOf(h.q, s.j);
    assert JobShown(q, s.j);
    assert IsActiveJobOf(q, app, s.j) ==> HasActiveJobs(q, app);
    forall a <- after.apps ensures a in stranded <==> after.apps[a].state.Processing? && !HasActiveJobs(after, a) {
      OtherApplications(q, after, s.j, a);
    }
  }

  lemma UploadKeepsStranded(h: History, s: QueueStep)
    requires Consistent(h.q) && WellFormed(s) && StrandedExactly(h) && s.Upload?
    ensures StrandedExactly(Advance(h, s))
  {
    var q, after := h.q, Apply(h.q, s);
    if after != q {
      forall a <- after.apps
        ensures a in Record(h, s).stranded <==> after.apps[a].state.Processing? && !HasActiveJobs(after, a)
      {
        forall k <- q.jobs ensures IsActiveJobOf(after, a, k) == IsActiveJobOf(q, a, k) {
          assert JobShown(q, k);
        }
        assert a != s.doc.app ==> !IsActiveJobOf(after, a, s.j);
        forall k <- after.jobs
          ensures IsActiveJobOf(Queue(q.apps, after.docs, after.jobs), a, k) == IsActiveJobOf(after, a, k)
        {
        }
      }
    }
  }

  lemma LifecycleKeepsStranded(h: History, s: QueueStep)
    requires Consistent(h.q) && StrandedExactly(h) && !JobStep(s) && !s.Upload?
    ensures StrandedExactly(Advance(h, s))
  {
    var q, after := h.q, Apply(h.q, s);
    JobsUntouched(q, s);
    forall a <- after.apps
      ensures a in Record(h, s).stranded <==> after.apps[a].state.Processing? && !HasActiveJobs(after, a)
    {
      forall k <- after.jobs ensures IsActiveJobOf(after, a, k) == IsActiveJobOf(q, a, k) {
        assert JobShown(q, k);
      }
      forall k <- q.jobs ensures IsActiveJobOf(after, a, k) == IsActiveJobOf(q, a, k) {
        assert JobShown(q, k);
      }
      if a !in q.apps {
        assert forall k <- q.jobs :: JobShown(q, k) && !IsActiveJobOf(q, a, k);
      }
    }
  }

  lemma AdvanceKeepsStranded(h: History, s: QueueStep)
    requires Consistent(h.q) && WellFormed(s) && StrandedExactly(h)
    ensures StrandedExactly(Advance(h, s))
  {
    JobsUntouched(h.q, s);
    if JobStep(s) {
      if s.j in h.q.jobs {
        JobStepKeepsStranded(h, s);
      }
    } else if s.Upload? {
      UploadKeepsStranded(h, s);
    } else {
      LifecycleKeepsStranded(h, s);
    }
  }

  ghost predicate NeverExhausted(q: Queue, steps: seq<QueueStep>)
    decreases |steps|
  {
    steps == [] || (!RecoversExhausted(q, steps[0]) && NeverExhausted(Apply(q, steps[0]), steps[1..]))
  }

  /**
   * An active job always means processing. The converse holds in every run without an exhausted recovery,
   * and in any run it fails exactly for the stranded applications.
   */
  lemma {:induction false} ProcessingMeansActive(h: History, steps: seq<QueueStep>)
    requires Consistent(h.q) && Balanced(h) && StrandedExactly(h) && PermittedRun(h, steps)
    ensures StrandedExactly(Run(h, steps))
    ensures forall a <- Run(h, steps).q.apps | HasActiveJobs(Run(h, steps).q, a) ::
        Run(h, steps).q.apps[a].state.Processing?
    ensures h.ledger.stranded == {} && NeverExhausted(h.q, steps) ==>
              forall a <- Run(h, steps).q.apps | Run(h, steps).q.apps[a].state.Processing? ::
                  HasActiveJobs(Run(h, steps).q, a)
    decreases |steps|
  {
    if steps == [] {
      ActiveMeansProcessing(h.q);
    } else {
      ApplyKeeps(h.q, steps[0]);
      AdvanceKeepsBalance(h, steps[0]);
      AdvanceKeepsStranded(h, steps[0]);
      ProcessingMeansActive(Advance(h, steps[0]), steps[1..]);
    }
  }

  /** An upload, an accepted retry of one of its jobs, or its deletion. */
  predicate Rescues(q: Queue, s: QueueStep, a: AppId) {
    || (s.Upload? && Apply(q, s) != q && s.doc.app == a)
    || (Retries(q, s) && Joined(q, s.j) && AppOf(q, s.j) == a)
    || (s.DeleteApplication? && s.app == a)
  }

  /** A stranded application can be neither completed, archived nor reopened. */
  lemma StrandedIsStuck(h: History, a: AppId, version: nat, now: Time)
    requires StrandedExactly(h) && a in h.ledger.stranded
    ensures Complete(h.q, a, version, now).1.Conflict? && Archive(h.q, a, version, now).1.Conflict?
    ensures Reopen(h.q, a, version).1.Conflict?
  {
  }

  /** One step moves a stranded application on exactly when it is an upload, a retry or a deletion of it. */
  lemma OnlyRescuesMoveOn(h: History, s: QueueStep, a: AppId)
    requires a in h.ledger.stranded
    ensures a in Record(h, s).stranded <==> !Rescues(h.q, s, a)
  {
  }

  ghost predicate NoRescue(q: Queue, steps: seq<QueueStep>, a: AppId)
    decreases |steps|
  {
    steps == [] || (!Rescues(q, steps[0], a) && NoRescue(Apply(q, steps[0]), steps[1..], a))
  }

  /** So it stays in processing without an active job over every run without one of these. */
  lemma {:induction false} StrandedUntilRescued(h: History, steps: seq<QueueStep>, a: AppId)
    requires Consistent(h.q) && Balanced(h) && StrandedExactly(h) && PermittedRun(h, steps)
    requires a in h.ledger.stranded && NoRescue(h.q, steps, a)
    ensures var w := Run(h, steps);
            && a in w.ledger.stranded && a in w.q.apps
            && w.q.apps[a].state.Processing? && !HasActiveJobs(w.q, a)
    decreases |steps|
  {
    if steps != [] {
      ApplyKeeps(h.q, steps[0]);
      AdvanceKeepsBalance(h, steps[0]);
      AdvanceKeepsStranded(h, steps[0]);
      OnlyRescuesMoveOn(h, steps[0], a);
      StrandedUntilRescued(Advance(h, steps[0]), steps[1..], a);
    }
  }

  /** How it comes about: the worker of the last active job goes silent in its third attempt. */
  lemma ExhaustedRecoveryStrands(h: History, s: QueueStep)
    requires Consistent(h.q) && StrandedExactly(h) && RecoversExhausted(h.q, s)
    requires forall k <- h.q.jobs | k != s.j :: !IsActiveJobOf(h.q, AppOf(h.q, s.j), k)
    ensures var after, app := Advance(h, s), AppOf(h.q, s.j);
            && app in after.ledger.stranded && app in after.q.apps
            && after.q.apps[app].state.Processing? && !HasActiveJobs(after.q, app)
  {
    var q, after, app := h.q, Apply(h.q, s), AppOf(h.q, s.j);
    assert JobShown(q, s.j);
    forall k <- after.jobs ensures !IsActiveJobOf(after, app, k) {
      assert k != s.j ==> IsActiveJobOf(after, app, k) == IsActiveJobOf(q, app, k);
    }
  }
}
