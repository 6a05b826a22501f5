/** The requests of a loan officer as the program serves them: the guard, idempotency keys, and the rows they change. */
module ReviewDesk {
  import opened Completeness
  import JobQueue
  import opened Redline
  import opened Reports
  import opened Requests
  import opened RuleCatalog
  import opened TemplateCatalog
  import opened Wrappers

  // ---------------------------------------------------------------------------
  // A request with its idempotency key
  // ---------------------------------------------------------------------------

  /** Requests without an operation take no idempotency key. */
  function OperationOf(r: Request): Option<Operation> {
    match r
    case ConfirmContext(_) => Some(ConfirmingContext)
    case CreateResolution(_, _) => Some(AddingResolution)
    case ConfirmCategory(doc, _) => Some(ConfirmingCategory(doc))
    case CreateMapping(_, _) => Some(AddingMapping)
    case CreateWaiver(_) => Some(AddingWaiver)
    case CreateReview(_, output, _) => Some(Reviewing(output))
    case CreateRedlineRun => Some(ReportingRedline)
    case CreateCheckRun => Some(ReportingChecks)
    case _ => None
  }

  function ResourceOf(r: Request): Option<Mapping> {
    if r.CreateMapping? then Some(Mapping(r.doc, r.item)) else None
  }

  /** What a request would add is there already; then it leaves no record of its key. */
  predicate Redundant(d: Dossier, r: Request) {
    || (r.CreateMapping? && Mapping(r.doc, r.item) in d.mappings)
    || (r.CreateWaiver? && r.item in d.waivers)
  }

  /** These refusals are decided only for a new key. */
  predicate RefusedLate(r: Request, outcome: Outcome) {
    r.CreateResolution? || (r.CreateReview? && outcome.Unprocessable?) || (r.CreateCheckRun? && outcome.ServerError?)
  }

  /**
   * A repeated request to map finds neither the mapping it made nor another one, and its key cannot be
   * recorded twice.
   */
  predicate CannotRepeat(d: Dossier, r: Request, made: Option<Mapping>) {
    r.CreateMapping? && !(made.Some? && made.value in d.mappings) && !Redundant(d, r)
  }

  ghost function Submit(
    d: Dossier, c: Catalog, docs: set<DocId>, today: Date, state: JobQueue.Lifecycle, e: Envelope, r: Request)
    : (Dossier, Outcome)
  {
    var (after, outcome) := Serve(d, c, docs, today, r);
    if r.CreateReview? && r.review.doc !in docs then (d, NotFound)
    else if !JobQueue.Mutable(state) then (d, Conflict)
    else if OperationOf(r).None? then (after, outcome)
    else if !outcome.Accepted? && !RefusedLate(r, outcome) then (d, outcome)
    else
      var k := KeyFor(e, OperationOf(r).value);
      match ReplayOf(d.receipts, k, e.requestHash)
      case Mismatch => (d, Conflict)
      case SameRequest(made) => (d, if CannotRepeat(d, r, made) then ServerError else Accepted)
      case NewRequest =>
        if !outcome.Accepted? || Redundant(d, r) then (d, outcome)
        else (after.(receipts := d.receipts[k := IdemRecord(e.requestHash, ResourceOf(r))]), Accepted)
  }

  /** A key that has been recorded never takes effect again, whatever comes with it. */
  lemma RecordedKeyHasNoEffect(
    d: Dossier, c: Catalog, docs: set<DocId>, today: Date, state: JobQueue.Lifecycle, e: Envelope, r: Request)
    requires OperationOf(r).Some? && KeyFor(e, OperationOf(r).value) in d.receipts
    ensures Submit(d, c, docs, today, state, e, r).0 == d
    ensures JobQueue.Mutable(state) && Serve(d, c, docs, today, r).1.Accepted?
            && d.receipts[KeyFor(e, OperationOf(r).value)].requestHash != e.requestHash
            ==> Submit(d, c, docs, today, state, e, r).1.Conflict?
  {
  }

  /** Every request that changes something under a key records it, and no record is ever changed. */
  lemma SubmitRecords(
    d: Dossier, c: Catalog, docs: set<DocId>, today: Date, state: JobQueue.Lifecycle, e: Envelope, r: Request)
    ensures var after := Submit(d, c, docs, today, state, e, r).0;
            && (forall k <- d.receipts :: k in after.receipts && after.receipts[k] == d.receipts[k])
            && (after != d && OperationOf(r).Some? ==>
                  && JobQueue.Mutable(state) && Serve(d, c, docs, today, r).1.Accepted?
                  && KeyFor(e, OperationOf(r).value) in after.receipts
                  && after == Serve(d, c, docs, today, r).0.(receipts := after.receipts))
  {
  }

  /**
   * Repeating a request to map, with its key, is answered with an error exactly when it would be served and
   * its mapping has been deleted since: the mapping is not made again.
   */
  lemma RepeatedMappingFailsExactly(
    d: Dossier, c: Catalog, docs: set<DocId>, today: Date, state: JobQueue.Lifecycle, e: Envelope,
    doc: DocId, item: ItemId)
    requires JobQueue.Mutable(state) && KeyFor(e, AddingMapping) in d.receipts
    requires d.receipts[KeyFor(e, AddingMapping)] == IdemRecord(e.requestHash, Some(Mapping(doc, item)))
    ensures var r := CreateMapping(doc, item);
            Submit(d, c, docs, today, state, e, r).1.ServerError?
            <==> Serve(d, c, docs, today, r).1.Accepted? && Mapping(doc, item) !in d.mappings
  {
  }

  // ---------------------------------------------------------------------------
  // Serving
  // ---------------------------------------------------------------------------

  class Desk {
    var profile: Profile
    var resolutions: seq<Resolution>
    var context: Option<string>
    var categories: map<DocId, Category>
    var candidates: map<DocId, set<Category>>
    var mappings: set<Mapping>
    var waivers: set<ItemId>
    var reviews: seq<Review>
    var redlineRuns: seq<RedlineRun>
    var checkRuns: seq<CheckRun>
    var receipts: map<IdemKey<Operation>, IdemRecord<Option<Mapping>>>

    function Contents(): Dossier
      reads this
    {
      Dossier(profile, resolutions, context, categories, candidates, mappings, waivers, reviews, redlineRuns,
          checkRuns, receipts)
    }

    constructor (p: Profile)
      ensures Contents() == NewDossier(p)
    {
      profile, resolutions, context, categories, candidates := p, [], None, map[], map[];
      mappings, waivers, reviews, redlineRuns, checkRuns, receipts := {}, {}, [], [], [], map[];
    }

    method MarkRedlineRunsStale(reason: StaleReason)
      modifies this`redlineRuns
      ensures redlineRuns == StaleRedlines(old(redlineRuns), reason)
    {
      for i := 0 to |redlineRuns|
        invariant |redlineRuns| == |old(redlineRuns)|
        invariant forall k | 0 <= k < i :: redlineRuns[k] == StaleRedline(old(redlineRuns)[k], reason)
        invariant forall k | i <= k < |redlineRuns| :: redlineRuns[k] == old(redlineRuns)[k]
      {
        if redlineRuns[i].status.Current? {
          redlineRuns := redlineRuns[i := redlineRuns[i].(status := Stale, staleReason := Some(reason))];
        }
      }
    }

    method MarkChecksStale(reason: StaleReason)
      modifies this`checkRuns
      ensures checkRuns == StaleChecks(old(checkRuns), reason)
    {
      for i := 0 to |checkRuns|
        invariant |checkRuns| == |old(checkRuns)|
        invariant forall k | 0 <= k < i :: checkRuns[k] == StaleCheck(old(checkRuns)[k], reason)
        invariant forall k | i <= k < |checkRuns| :: checkRuns[k] == old(checkRuns)[k]
      {
        if checkRuns[i].status.Current? {
          checkRuns := checkRuns[i := checkRuns[i].(status := Stale, staleReason := Some(reason))];
        }
      }
    }

    /** The answer to a key that is known already. */
    function Answer(e: Envelope, operation: Operation): Option<Outcome>
      reads this`receipts
    {
      match ReplayOf(receipts, KeyFor(e, operation), e.requestHash)
      case Mismatch => Some(Conflict)
      case SameRequest(_) => Some(Accepted)
      case NewRequest => None
    }

    method Remember(e: Envelope, operation: Operation, resource: Option<Mapping>)
      modifies this`receipts
      ensures receipts == old(receipts)[KeyFor(e, operation) := IdemRecord(e.requestHash, resource)]
    {
      receipts := receipts[KeyFor(e, operation) := IdemRecord(e.requestHash, resource)];
    }

    method CreateResolution(c: Catalog, docs: set<DocId>, today: Date, state: JobQueue.Lifecycle, e: Envelope,
                            resolution: Resolution, checked: Outcome) returns (outcome: Outcome)
      modifies this
      ensures (Contents(), outcome)
           == Submit(old(Contents()), c, docs, today, state, e, Request.CreateResolution(resolution, checked))
    {
      if !JobQueue.Mutable(state) {
        return Conflict;
      }
      var known := Answer(e, AddingResolution);
      if known.Some? {
        return known.value;
      }
      if !checked.Accepted? {
        return checked;
      }
      resolutions := resolutions + [resolution];
      Remember(e, AddingResolution, None);
      MarkChecksStale(ConditionContextChange);
      MarkRedlineRunsStale(CriticalInputChange);
      return Accepted;
    }

    method ConfirmRuleContext(c: Catalog, docs: set<DocId>, today: Date, state: JobQueue.Lifecycle, e: Envelope,
                              stripped: string) returns (outcome: Outcome)
      modifies this
      ensures (Contents(), outcome) == Submit(old(Contents()), c, docs, today, state, e, ConfirmContext(stripped))
    {
      if !JobQueue.Mutable(state) {
        return Conflict;
      }
      var known := Answer(e, ConfirmingContext);
      if known.Some? {
        return known.value;
      }
      context := Some(stripped);
      Remember(e, ConfirmingContext, None);
      MarkRedlineRunsStale(RuleContextChange);
      return Accepted;
    }

    /** A compare-and-set on the version, which the row of the application keeps. */
    method UpdateApplication(c: Catalog, docs: set<DocId>, today: Date, life: JobQueue.Life, version: nat, p: Profile)
      returns (outcome: Outcome)
      modifies this
      ensures (Contents(), outcome)
           == if JobQueue.Mutable(life.state) && life.version == version
              then Serve(old(Contents()), c, docs, today, UpdateProfile(p)) else (old(Contents()), Conflict)
    {
      if !JobQueue.Mutable(life.state) || life.version != version {
        return Conflict;
      }
      profile := p;
      MarkRedlineRunsStale(ApplicationChange);
      return Accepted;
    }

    method ConfirmClassification(c: Catalog, docs: set<DocId>, today: Date, state: JobQueue.Lifecycle, e: Envelope,
                                 doc: DocId, category: Category) returns (outcome: Outcome)
      modifies this
      ensures (Contents(), outcome)
           == Submit(old(Contents()), c, docs, today, state, e, ConfirmCategory(doc, category))
    {
      if !JobQueue.Mutable(state) {
        return Conflict;
      }
      if doc !in docs {
        return Unprocessable;
      }
      var known := Answer(e, ConfirmingCategory(doc));
      if known.Some? {
        return known.value;
      }
      categories := categories[doc := category];
      Remember(e, ConfirmingCategory(doc), None);
      MarkChecksStale(ClassificationChange);
      return Accepted;
    }

    method CreateMapping(c: Catalog, docs: set<DocId>, today: Date, state: JobQueue.Lifecycle, e: Envelope,
                         doc: DocId, item: ItemId) returns (outcome: Outcome)
      modifies this
      ensures (Contents(), outcome)
           == Submit(old(Contents()), c, docs, today, state, e, Request.CreateMapping(doc, item))
    {
      if !JobQueue.Mutable(state) {
        return Conflict;
      }
      var template := Applicable(Contents(), c);
      if template.None? {
        return Conflict;
      }
      if doc !in docs || !IsItem(c.templates, item) || item.template != template.value {
        return Unprocessable;
      }
      var replay := ReplayOf(receipts, KeyFor(e, AddingMapping), e.requestHash);
      if replay.Mismatch? {
        return Conflict;
      }
      if replay.SameRequest? && replay.resource.Some? && replay.resource.value in mappings {
        return Accepted;
      }
      if Mapping(doc, item) in mappings {
        return Accepted;
      }
      if replay.SameRequest? {
        return ServerError;
      }
      mappings := mappings + {Mapping(doc, item)};
      Remember(e, AddingMapping, Some(Mapping(doc, item)));
      MarkChecksStale(MappingChange);
      return Accepted;
    }

    method DeleteMapping(c: Catalog, docs: set<DocId>, today: Date, state: JobQueue.Lifecycle, e: Envelope,
        mapping: Mapping)
      returns (outcome: Outcome)
      modifies this
      ensures (Contents(), outcome) == Submit(old(Contents()), c, docs, today, state, e, Request.DeleteMapping(mapping))
    {
      if !JobQueue.Mutable(state) {
        return Conflict;
      }
      if mapping !in mappings {
        return NotFound;
      }
      mappings := mappings - {mapping};
      MarkChecksStale(MappingChange);
      return Accepted;
    }

    method CreateWaiver(c: Catalog, docs: set<DocId>, today: Date, state: JobQueue.Lifecycle, e: Envelope, item: ItemId)
      returns (outcome: Outcome)
      modifies this
      ensures (Contents(), outcome) == Submit(old(Contents()), c, docs, today, state, e, Request.CreateWaiver(item))
    {
      if !JobQueue.Mutable(state) {
        return Conflict;
      }
      var template := Applicable(Contents(), c);
      if template.None? {
        return Conflict;
      }
      if !IsItem(c.templates, item) || item.template != template.value {
        return Unprocessable;
      }
      var known := Answer(e, AddingWaiver);
      if known.Some? {
        return known.value;
      }
      if item in waivers {
        return Accepted;
      }
      waivers := waivers + {item};
      Remember(e, AddingWaiver, None);
      MarkChecksStale(WaiverChange);
      return Accepted;
    }

    method CreateReview(c: Catalog, docs: set<DocId>, today: Date, state: JobQueue.Lifecycle, e: Envelope,
                        review: Review, output: nat, seal: Seal) returns (outcome: Outcome)
      modifies this
      ensures (Contents(), outcome)
           == Submit(old(Contents()), c, docs, today, state, e, Request.CreateReview(review, output, seal))
    {
      if review.doc !in docs {
        return NotFound;
      }
      if !JobQueue.Mutable(state) {
        return Conflict;
      }
      var known := Answer(e, Reviewing(output));
      if known.Some? {
        return known.value;
      }
      if !SealFits(review.kind, seal) {
        return Unprocessable;
      }
      reviews := reviews + [review];
      Remember(e, Reviewing(output), None);
      MarkChecksStale(EvidenceReviewChange);
      return Accepted;
    }

    /** Candidates already stored are kept; nothing is marked stale, and no state of the application prevents it. */
    method RunClassification(c: Catalog, docs: set<DocId>, today: Date, doc: DocId, found: seq<Category>)
      returns (outcome: Outcome)
      modifies this
      ensures (Contents(), outcome) == Serve(old(Contents()), c, docs, today, AddCandidates(doc, found))
    {
      if doc !in docs {
        return NotFound;
      }
      for i := 0 to |found|
        invariant unchanged(this) || (i > 0 && Contents() == old(Contents()).(candidates := candidates))
        invariant candidates == MoreCandidates(old(candidates), doc, found[..i])
      {
        assert found[..i + 1][..i] == found[..i];
        var known := Candidates(candidates, doc);
        if found[i] in known {
          assert known + {found[i]} == known;
          assert candidates[doc := known] == candidates;
          continue;
        }
        candidates := candidates[doc := known + {found[i]}];
      }
      assert found[..|found|] == found;
      return Accepted;
    }

    method AddRedlineRun(e: Envelope, run: RedlineRun)
      modifies this`redlineRuns, this`receipts
      ensures redlineRuns == StaleRedlines(old(redlineRuns), NewRun) + [run]
      ensures receipts == old(receipts)[KeyFor(e, ReportingRedline) := IdemRecord(e.requestHash, None)]
    {
      MarkRedlineRunsStale(NewRun);
      redlineRuns := redlineRuns + [run];
      Remember(e, ReportingRedline, None);
    }

    method AddCheckRun(e: Envelope, run: CheckRun)
      modifies this`checkRuns, this`receipts
      ensures checkRuns == StaleChecks(old(checkRuns), NewRun) + [run]
      ensures receipts == old(receipts)[KeyFor(e, ReportingChecks) := IdemRecord(e.requestHash, None)]
    {
      MarkChecksStale(NewRun);
      checkRuns := checkRuns + [run];
      Remember(e, ReportingChecks, None);
    }

    method CreateRedlineRun(c: Catalog, docs: set<DocId>, today: Date, state: JobQueue.Lifecycle, e: Envelope)
      returns (outcome: Outcome)
      modifies this
      ensures (Contents(), outcome) == Submit(old(Contents()), c, docs, today, state, e, Request.CreateRedlineRun)
    {
      if !JobQueue.Mutable(state) {
        return Conflict;
      }
      var confirmed := ConfirmedResolutions(resolutions);
      var q := Query(c.qualification, context, profile.product, today, profile.signingDate, confirmed, c.growth);
      var result := EvaluateRedline(c.rules, LprRows(c), q);
      assert result == LiveRedline(Contents(), c, today);
      if Fails(result) {
        return ServerError;
      }
      if DemoRefused(result, c) {
        return Unprocessable;
      }
      var known := Answer(e, ReportingRedline);
      if known.Some? {
        return known.value;
      }
      AddRedlineRun(e, SnapshotOf(result, q, c.rules));
      return Accepted;
    }

    /** The states of the items, once the lists of mappings and waivers have been sorted. */
    method FreezeChecks(c: Catalog, id: TemplateId) returns (run: Option<CheckRun>)
      requires id < |c.templates|
      ensures run == if Unsortable(Contents(), c.templates) then None
                     else Some(CheckRun(id, c.templates[id],
                                        EvaluateItems(c.templates[id].items, EvidenceOf(Contents(), c.templates)),
                                            Current, None))
    {
      if Unsortable(Contents(), c.templates) {
        return None;
      }
      var states := EvaluateItems(c.templates[id].items, EvidenceOf(Contents(), c.templates));
      return Some(CheckRun(id, c.templates[id], states, Current, None));
    }

    method CreateCompletenessRun(c: Catalog, docs: set<DocId>, today: Date, state: JobQueue.Lifecycle, e: Envelope)
      returns (outcome: Outcome)
      modifies this
      ensures (Contents(), outcome) == Submit(old(Contents()), c, docs, today, state, e, CreateCheckRun)
    {
      if !JobQueue.Mutable(state) {
        return Conflict;
      }
      var applicable := Applicable(Contents(), c);
      if applicable.None? {
        return Unprocessable;
      }
      var template := c.templates[applicable.value];
      if c.production && template.demoOnly {
        return Unprocessable;
      }
      var known := Answer(e, ReportingChecks);
      if known.Some? {
        return known.value;
      }
      var run := FreezeChecks(c, applicable.value);
      if run.None? {
        return ServerError;
      }
      AddCheckRun(e, run.value);
      return Accepted;
    }
  }
}
