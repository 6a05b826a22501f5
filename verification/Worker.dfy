/** One pass of the worker over a claimed job: which steps it writes, and what it reports. */
module Worker {
  import opened JobQueue
  import opened QueueRuns
  import opened Wrappers

  /** Failures of the object store are worth another attempt; anything else is not. */
  datatype Fault = StoreUnavailable | Unexpected

  datatype Checked = Valid | Rejected(manual: bool, code: string) | CheckFault(fault: Fault)

  datatype Parse = Parsed(failedPages: nat, pages: nat) | ParseFault(fault: Fault)

  datatype Extraction = Extracted(problem: Option<string>) | ExtractionFault(fault: Fault)

  /** What the libraries, the object store and the tables answer during the pass. */
  datatype Answers = Answers(
    open: Option<Fault>, check: Checked, parse: Parse, storedOutput: Option<JobStatus>,
    classify: Option<Fault>, extract: Extraction)

  datatype Report = Report(outcome: JobStatus, error: Option<string>, transient: bool)

  type Writes = map<StepName, (JobStatus, Option<string>)>

  function ReportFault(f: Fault): Report {
    match f
    case StoreUnavailable => Report(Failed, Some("object_store_unavailable"), true)
    case Unexpected => Report(Failed, Some("unexpected_validation_error"), false)
  }

  /** No page failed, some did, or all of them did. */
  function ParseStatus(failedPages: nat, pages: nat): JobStatus {
    if failedPages == 0 then Success else if failedPages == pages then Failed else PartialSuccess
  }

  predicate Usable(output: Option<JobStatus>) {
    output == Some(Success) || output == Some(PartialSuccess)
  }

  /** A step that went well, or had nothing to do. */
  predicate Fine(status: JobStatus) { status.Success? || status.StepNotApplicable? }

  /** The output later steps read: the one just parsed, or else the newest stored one. */
  function Output(running: set<StepName>, a: Answers): Option<JobStatus> {
    if a.parse.Parsed? && (ParsingOcr in running || SealDetection in running)
    then Some(ParseStatus(a.parse.failedPages, a.parse.pages)) else a.storedOutput
  }

  function PageError(status: JobStatus): Option<string> {
    if status.PartialSuccess? then Some("partial_page_failure")
    else if status.Failed? then Some("all_pages_failed") else None
  }

  function OnFault(f: Option<Fault>): seq<Report> {
    if f.Some? then [ReportFault(f.value)] else []
  }

  /** What each stage that runs would stop the pass with, in the order of the stages. */
  function Stops(running: set<StepName>, a: Answers): seq<Report> {
    OnFault(a.open)
    + (if Validation !in running then [] else
         match a.check
         case Valid => []
         case Rejected(manual, code) => [Report(if manual then ManualHandling else Failed, Some(code), false)]
         case CheckFault(f) => [ReportFault(f)])
    + (if (ParsingOcr in running || SealDetection in running) && a.parse.ParseFault?
       then [ReportFault(a.parse.fault)] else [])
    + (if Classification in running && Usable(Output(running, a)) then OnFault(a.classify) else [])
    + (if CandidateExtraction in running && Usable(Output(running, a)) && a.extract.ExtractionFault?
       then [ReportFault(a.extract.fault)] else [])
  }

  /** The final status and error of a step that the pass gets to. */
  function Settled(name: StepName, running: set<StepName>, a: Answers): (JobStatus, Option<string>)
    requires (name.ParsingOcr? || name.SealDetection?) ==> a.parse.Parsed?
  {
    match name
    case ParsingOcr => var pages := ParseStatus(a.parse.failedPages, a.parse.pages); (pages, PageError(pages))
    case SealDetection => var pages := ParseStatus(a.parse.failedPages, a.parse.pages); (pages, PageError(pages))
    case Classification => (if Usable(Output(running, a)) then Success else StepNotApplicable, None)
    case CandidateExtraction =>
      if !Usable(Output(running, a)) then (StepNotApplicable, None)
      else if a.extract.Extracted? && a.extract.problem.Some? then (PartialSuccess, a.extract.problem)
      else (Success, None)
    case _ => (Success, None)
  }

  /** The last problem of a pass that reaches its end, extraction after pages. */
  function EndReport(running: set<StepName>, a: Answers): Report {
    if CandidateExtraction in running && Usable(Output(running, a)) && a.extract.Extracted? && a.extract.problem.Some?
    then Report(PartialSuccess, a.extract.problem, false)
    else if (ParsingOcr in running || SealDetection in running) && a.parse.Parsed?
    then var pages := ParseStatus(a.parse.failedPages, a.parse.pages); Report(pages, PageError(pages), false)
    else Report(Success, None, false)
  }

  /** The pass gets through this step: no stage up to it fails. */
  predicate GetsThrough(name: StepName, running: set<StepName>, a: Answers) {
    var checked := a.open.None? && (Validation in running ==> a.check.Valid?);
    var parsed := checked && (ParsingOcr in running || SealDetection in running ==> a.parse.Parsed?);
    var usable := Usable(Output(running, a));
    var classified := parsed && (Classification in running && usable ==> a.classify.None?);
    match name
    case Validation => checked
    case ParsingOcr => parsed
    case SealDetection => parsed
    case Classification => classified
    case CandidateExtraction => classified && (usable ==> a.extract.Extracted?)
    case StructureExtraction => false
  }

  /**
   * The first stage that fails decides the report; without one, pages and extraction do. Exactly the steps before
   * it are settled, and what is settled does not depend on where the pass stops.
   */
  predicate Passed(running: set<StepName>, a: Answers, writes: Writes, report: Report) {
    && report == (Stops(running, a) + [EndReport(running, a)])[0]
    && (forall name :: name in writes <==> name in running && GetsThrough(name, running, a))
    && (forall name <- writes :: ((name.ParsingOcr? || name.SealDetection?) ==> a.parse.Parsed?)
                                 && writes[name] == Settled(name, running, a))
  }

  /** A success hides nothing, a partial success has a step to show for it, and only failures are transient. */
  lemma ReportsAreHonest(running: set<StepName>, a: Answers, writes: Writes, report: Report)
    requires Passed(running, a, writes, report)
    ensures IsOutcome(report.outcome) && (report.transient ==> report.outcome.Failed?)
    ensures forall name <- writes :: !Active(writes[name].0)
    ensures report.outcome.Success? ==> forall name <- writes :: Fine(writes[name].0)
    ensures report.outcome.PartialSuccess? ==> exists name <- writes :: writes[name].0.PartialSuccess?
    ensures report.outcome.ManualHandling? <==>
              a.open.None? && Validation in running && a.check.Rejected? && a.check.manual
  {
    if report.outcome.PartialSuccess? {
      assert (ParsingOcr in writes && writes[ParsingOcr].0.PartialSuccess?)
          || (SealDetection in writes && writes[SealDetection].0.PartialSuccess?)
          || (CandidateExtraction in writes && writes[CandidateExtraction].0.PartialSuccess?);
    }
  }

  predicate ReadsPages(running: set<StepName>) { ParsingOcr in running || SealDetection in running }

  /** Some page could be read, now or when the stored output was made. */
  predicate HasPages(running: set<StepName>, a: Answers) {
    if ReadsPages(running) then a.parse.Parsed? && (a.parse.failedPages == 0 || a.parse.failedPages != a.parse.pages)
    else a.storedOutput in {Some(Success), Some(PartialSuccess)}
  }

  /** A fault fails the job; it is worth another attempt exactly when the object store could not be reached. */
  predicate TellsFault(report: Report, f: Fault) {
    && report.outcome == Failed && (report.transient <==> f == StoreUnavailable)
    && report.error == Some(if f == StoreUnavailable then "object_store_unavailable" else "unexpected_validation_error")
  }

  /** The stages decide in their order: the report is that of the first that fails, or else of what was read. */
  lemma StagesDecide(running: set<StepName>, a: Answers, writes: Writes, report: Report)
    requires Passed(running, a, writes, report)
    ensures a.open.Some? ==> TellsFault(report, a.open.value)
    ensures a.open.None? && Validation in running && a.check.CheckFault? ==> TellsFault(report, a.check.fault)
    ensures a.open.None? && Validation in running && a.check.Rejected? ==>
              report == Report(if a.check.manual then ManualHandling else Failed, Some(a.check.code), false)
    ensures var checked := a.open.None? && (Validation in running ==> a.check.Valid?);
            var parsed := checked && (ReadsPages(running) ==> a.parse.Parsed?);
            var classifies := Classification in running && HasPages(running, a);
            var extracts := CandidateExtraction in running && HasPages(running, a);
            var classified := parsed && (classifies ==> a.classify.None?);
            && (checked && !parsed ==> TellsFault(report, a.parse.fault))
            && (parsed && !classified ==> TellsFault(report, a.classify.value))
            && (classified && extracts && a.extract.ExtractionFault? ==> TellsFault(report, a.extract.fault))
            && (classified && (extracts ==> a.extract.Extracted?) ==>
                  report == if extracts && a.extract.problem.Some?
                            then Report(PartialSuccess, a.extract.problem, false)
                            else if !ReadsPages(running) || a.parse.failedPages == 0 then Report(Success, None, false)
                            else if a.parse.failedPages == a.parse.pages
                            then Report(Failed, Some("all_pages_failed"), false)
                            else Report(PartialSuccess, Some("partial_page_failure"), false))
  {
  }

  /** What the pass writes of a step: pages alike for both steps that read them, nothing to do without pages. */
  lemma WritesSay(running: set<StepName>, a: Answers, writes: Writes, report: Report)
    requires Passed(running, a, writes, report)
    ensures forall name <- writes ::
              var status := writes[name].0;
              && name in running && (name == Validation || name == StructureExtraction ==> status == Success)
              && (name in {ParsingOcr, SealDetection} ==>
                    && a.parse.Parsed?
                    && (status == Success <==> a.parse.failedPages == 0)
                    && (status == Failed <==> a.parse.failedPages != 0 && a.parse.failedPages == a.parse.pages)
                    && (status == PartialSuccess <==> a.parse.failedPages != 0 && a.parse.failedPages != a.parse.pages))
              && (name in {Classification, CandidateExtraction} ==>
                    && (status == StepNotApplicable <==> !HasPages(running, a))
                    && (status == PartialSuccess <==>
                          && HasPages(running, a) && name == CandidateExtraction
                          && a.extract.Extracted? && a.extract.problem.Some?))
    ensures report.outcome in {Success, PartialSuccess} ==> writes.Keys == running - {StructureExtraction}
  {
  }

  /** The stages up to the pages have passed, and what they ran is written. */
  ghost predicate PagesDone(running: set<StepName>, a: Answers, writes: Writes, pages: Report) {
    && GetsThrough(ParsingOcr, running, a)
    && (forall name :: name in writes <==> name in running && name in {Validation, ParsingOcr, SealDetection})
    && (forall name <- writes ::
          (name != Validation ==> a.parse.Parsed?) && writes[name] == Settled(name, running, a))
    && (if ParsingOcr in running || SealDetection in running
        then var status := ParseStatus(a.parse.failedPages, a.parse.pages);
             pages == Report(status, PageError(status), false)
        else pages == Report(Success, None, false))
  }

  method ProcessOne(running: set<StepName>, a: Answers) returns (writes: Writes, report: Report)
    ensures Passed(running, a, writes, report)
  {
    writes := map[];
    if a.open.Some? {
      return writes, ReportFault(a.open.value);
    }
    if Validation in running {
      match a.check
      case CheckFault(f) => return writes, ReportFault(f);
      case Rejected(manual, code) =>
        return writes, Report(if manual then ManualHandling else Failed, Some(code), false);
      case Valid => writes := writes[Validation := (Success, None)];
    }
    var outcome, error := Success, None;
    var output := a.storedOutput;
    if ParsingOcr in running || SealDetection in running {
      if a.parse.ParseFault? {
        return writes, ReportFault(a.parse.fault);
      }
      outcome := ParseStatus(a.parse.failedPages, a.parse.pages);
      output := Some(outcome);
      error := PageError(outcome);
      if ParsingOcr in running { writes := writes[ParsingOcr := (outcome, error)]; }
      if SealDetection in running { writes := writes[SealDetection := (outcome, error)]; }
    }
    writes, report := UseOutput(running, a, output, writes, Report(outcome, error, false));
  }

  /** Classification and extraction, on the newest output if it can be used. */
  method UseOutput(running: set<StepName>, a: Answers, output: Option<JobStatus>, before: Writes, pages: Report)
    returns (writes: Writes, report: Report)
    requires PagesDone(running, a, before, pages) && output == Output(running, a)
    ensures Passed(running, a, writes, report)
  {
    writes, report := before, pages;
    if CandidateExtraction in running || Classification in running {
      if Usable(output) {
        if Classification in running {
          if a.classify.Some? {
            return writes, ReportFault(a.classify.value);
          }
          writes := writes[Classification := (Success, None)];
        }
        if CandidateExtraction in running {
          if a.extract.ExtractionFault? {
            return writes, ReportFault(a.extract.fault);
          }
          var status := if a.extract.problem.Some? then PartialSuccess else Success;
          writes := writes[CandidateExtraction := (status, a.extract.problem)];
          if a.extract.problem.Some? {
            report := Report(PartialSuccess, a.extract.problem, false);
          }
        }
      } else {
        if Classification in running { writes := writes[Classification := (StepNotApplicable, None)]; }
        if CandidateExtraction in running { writes := writes[CandidateExtraction := (StepNotApplicable, None)]; }
      }
    }
  }

  // ---------------------------------------------------------------------------
  // The pass as steps of the queue
  // ---------------------------------------------------------------------------

  function Written(s: Step, writes: Writes): Step {
    if s.name in writes then s.(status := writes[s.name].0, error := writes[s.name].1) else s
  }

  function WriteAll(steps: seq<Step>, writes: Writes): (r: seq<Step>)
    ensures |r| == |steps| && forall i | 0 <= i < |r| :: r[i] == Written(steps[i], writes)
  {
    seq(|steps|, i requires 0 <= i < |steps| => Written(steps[i], writes))
  }

  function RunningNames(steps: seq<Step>): set<StepName> {
    set s <- steps | s.status.Running? :: s.name
  }

  ghost predicate DistinctNames(steps: seq<Step>) {
    forall i, j | 0 <= i < j < |steps| :: steps[i].name != steps[j].name
  }

  /**
   * A job that is finished as a success has, of the steps it ran, only fine ones; one sent back after a
   * transient fault keeps the steps it settled and will run exactly the others again.
   */
  lemma FinishedStepsTellTheOutcome(job: Job, a: Answers, writes: Writes, report: Report, now: Time)
    requires JobConsistent(job) && job.status.Running? && DistinctNames(job.steps)
    requires Passed(RunningNames(job.steps), a, writes, report)
    ensures var after := FinishedJob(job.(steps := WriteAll(job.steps, writes)), report.outcome, report.error,
        report.transient, now);
            && |after.steps| == |job.steps|
            && (after.status.Success? ==>
                  forall i | 0 <= i < |job.steps| && job.steps[i].status.Running? :: Fine(after.steps[i].status))
            && (after.status.Waiting? ==>
                  forall i | 0 <= i < |job.steps| ::
                    after.steps[i].status.Waiting? <==> job.steps[i].status.Running? && job.steps[i].name !in writes)
            && (!after.status.Waiting? ==>
                  forall i | 0 <= i < |job.steps| && job.steps[i].status.Running? && job.steps[i].name !in writes ::
                    after.steps[i].status == report.outcome)
            && (forall i | 0 <= i < |job.steps| && !job.steps[i].status.Running? :: after.steps[i] == job.steps[i])
  {
    ReportsAreHonest(RunningNames(job.steps), a, writes, report);
    forall i | 0 <= i < |job.steps| && job.steps[i].name in writes ensures job.steps[i].status.Running? {
      var s :| s in job.steps && s.status.Running? && s.name == job.steps[i].name;
      var k :| 0 <= k < |job.steps| && job.steps[k] == s;
      assert k == i;
    }
  }

  // ---------------------------------------------------------------------------
  // The pass among the other workers
  // ---------------------------------------------------------------------------

  predicate Stores(s: QueueStep, j: JobId, i: nat) { s.StoreStep? && s.j == j && s.i == i && !Active(s.status) }

  /** What the stores of a run leave of one step of a job. */
  function LastStored(before: Step, run: seq<QueueStep>, j: JobId, i: nat): Step
    decreases |run|
  {
    if run == [] then before
    else
      var s := run[0];
      LastStored(if Stores(s, j, i) then before.(status := s.status, error := s.error) else before, run[1..], j, i)
  }

  lemma {:induction false} LastStoredIsLast(before: Step, run: seq<QueueStep>, j: JobId, i: nat)
    ensures var after := LastStored(before, run, j, i);
            || (after == before && forall k | 0 <= k < |run| :: !Stores(run[k], j, i))
            || (exists k | 0 <= k < |run| ::
                  && Stores(run[k], j, i) && after == before.(status := run[k].status, error := run[k].error)
                  && forall l | k < l < |run| :: !Stores(run[l], j, i))
    decreases |run|
  {
    if run != [] {
      var s, rest := run[0], run[1..];
      var next := if Stores(s, j, i) then before.(status := s.status, error := s.error) else before;
      LastStoredIsLast(next, rest, j, i);
      if forall k | 0 <= k < |rest| :: !Stores(rest[k], j, i) {
        assert forall l | 0 < l < |run| :: run[l] == rest[l - 1];
        assert Stores(s, j, i) ==> Stores(run[0], j, i);
      } else {
        var k :| 0 <= k < |rest| && Stores(rest[k], j, i)
          && LastStored(before, run, j, i) == next.(status := rest[k].status, error := rest[k].error)
          && forall l | k < l < |rest| :: !Stores(rest[l], j, i);
        assert run[k + 1] == rest[k];
        assert forall l | k + 1 < l < |run| :: run[l] == rest[l - 1];
      }
    }
  }

  lemma LastStoredStep(before: Step, run: seq<QueueStep>, j: JobId, i: nat)
    requires run != []
    ensures LastStored(before, run, j, i) == LastStored(LastStored(before, [run[0]], j, i), run[1..], j, i)
  {
    assert [run[0]][1..] == [];
  }

  /** The steps of a job are those of before with what the run has stored. */
  ghost predicate StoredOnly(before: seq<Step>, after: seq<Step>, run: seq<QueueStep>, j: JobId) {
    |after| == |before| && forall i | 0 <= i < |before| :: after[i] == LastStored(before[i], run, j, i)
  }

  lemma StoredOnlyChains(before: seq<Step>, middle: seq<Step>, after: seq<Step>, run: seq<QueueStep>, j: JobId)
    requires run != [] && StoredOnly(before, middle, [run[0]], j) && StoredOnly(middle, after, run[1..], j)
    ensures StoredOnly(before, after, run, j)
  {
    forall i | 0 <= i < |before| ensures after[i] == LastStored(before[i], run, j, i) {
      LastStoredStep(before[i], run, j, i);
    }
  }

  /** As long as a claim stays open, only stores change the steps of its job. */
  lemma {:induction false} OnlyStoresChangeSteps(h: History, run: seq<QueueStep>, j: JobId, t: Token)
    requires Consistent(h.q) && Balanced(h) && PermittedRun(h, run)
    requires j in h.q.jobs && t in TokenOf(h.q.jobs[j]) && t !in Closed(Run(h, run).ledger)
    ensures var w := Run(h, run).q;
            j in w.jobs && StoredOnly(h.q.jobs[j].steps, w.jobs[j].steps, run, j)
    decreases |run|
  {
    if run != [] {
      var next := Advance(h, run[0]);
      StepKeepsClaim(h, run[0], j, t, next);
      RunsStayConsistent(next, run[1..]);
      OnlyStoresChangeSteps(next, run[1..], j, t);
      StoredOnlyChains(h.q.jobs[j].steps, next.q.jobs[j].steps, Run(next, run[1..]).q.jobs[j].steps, run, j);
    }
  }

  lemma StepKeepsClaim(h: History, s: QueueStep, j: JobId, t: Token, next: History)
    requires Consistent(h.q) && Balanced(h) && Permitted(h, s) && next == Advance(h, s)
    requires j in h.q.jobs && t in TokenOf(h.q.jobs[j])
    ensures Consistent(next.q) && Balanced(next)
    ensures || t in Closed(next.ledger)
            || (&& j in next.q.jobs && t in TokenOf(next.q.jobs[j])
                && StoredOnly(h.q.jobs[j].steps, next.q.jobs[j].steps, [s], j))
  {
    ApplyKeeps(h.q, s);
    AdvanceKeepsBalance(h, s);
    StepClosesOrLeaves(h, s, j, t);
    if t !in Closed(next.ledger) {
      OneStoreAtMost(h, s, j, t);
    }
  }

  lemma OneStoreAtMost(h: History, s: QueueStep, j: JobId, t: Token)
    requires Consistent(h.q) && Balanced(h) && Permitted(h, s)
    requires j in h.q.jobs && t in TokenOf(h.q.jobs[j])
    requires j in Apply(h.q, s).jobs && t in TokenOf(Apply(h.q, s).jobs[j])
    ensures StoredOnly(h.q.jobs[j].steps, Apply(h.q, s).jobs[j].steps, [s], j)
  {
    JobsUntouched(h.q, s);
    assert [s][1..] == [];
    if JobStep(s) && s.j in h.q.jobs {
      TokenChange(h.q, s);
    }
  }

  /** The stores of this pass among the steps of a run: each writes what the pass has settled for that step. */
  ghost predicate OwnStores(own: set<nat>, run: seq<QueueStep>, j: JobId, steps: seq<Step>, writes: Writes) {
    forall k <- own ::
      && k < |run| && run[k].StoreStep? && run[k].j == j && run[k].i < |steps|
      && steps[run[k].i].name in writes && writes[steps[run[k].i].name] == (run[k].status, run[k].error)
  }

  /**
   * A worker claims a job, other workers do what they do, the worker stores what it settled, and its claim is
   * still open when it reports a success. Then each step that it ran is fine, unless another worker, one that
   * had lost the job, was the last to write it.
   */
  lemma SuccessIsFineUnlessOverwritten(
    h: History, run: seq<QueueStep>, own: set<nat>, j: JobId, t: Token, a: Answers, writes: Writes, report: Report,
    now: Time, i: nat)
    requires Consistent(h.q) && Balanced(h) && PermittedRun(h, run)
    requires j in h.q.jobs && t in TokenOf(h.q.jobs[j]) && t !in Closed(Run(h, run).ledger)
    requires Passed(RunningNames(h.q.jobs[j].steps), a, writes, report) && report.outcome.Success?
    requires OwnStores(own, run, j, h.q.jobs[j].steps, writes)
    requires i < |h.q.jobs[j].steps| && h.q.jobs[j].steps[i].status.Running?
    ensures var w := Run(h, run).q;
            && j in w.jobs && i < |w.jobs[j].steps|
            && var after := FinishedJob(w.jobs[j], report.outcome, report.error, report.transient, now);
               || Fine(after.steps[i].status)
               || exists k | 0 <= k < |run| ::
                    && k !in own && Stores(run[k], j, i) && run[k].status == after.steps[i].status
                    && forall l | k < l < |run| :: !Stores(run[l], j, i)
  {
    OnlyStoresChangeSteps(h, run, j, t);
    ReportsAreHonest(RunningNames(h.q.jobs[j].steps), a, writes, report);
    LastStoredIsLast(h.q.jobs[j].steps[i], run, j, i);
  }
}
