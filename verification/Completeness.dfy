/** Evidence of an application and the state it gives each checklist item. */
module Completeness {
  import opened Requests
  import opened TemplateCatalog

  datatype ItemState = Satisfied | Missing | PendingConfirmation | ItemNotApplicable | ManuallyWaived

  /** What the evaluation of a checklist reads. */
  datatype Evidence = Evidence(
    waivers: set<string>,
    conditions: set<string>,
    mapped: map<string, set<DocId>>,
    confirmedCategory: map<DocId, Category>,
    candidates: map<DocId, set<Category>>,
    sealPresent: set<DocId>,
    signaturePresent: set<DocId>)

  predicate ConditionMet(item: Item, conditions: set<string>) {
    item.condition.None?
    || (item.condition.value in CONDITION_KEYS && item.condition.value in conditions)
  }

  function Documents(e: Evidence, code: string): set<DocId> {
    if code in e.mapped then e.mapped[code] else {}
  }

  predicate HasCandidate(e: Evidence, category: Category) {
    exists doc <- e.candidates :: category in e.candidates[doc]
  }

  predicate ConfirmedAs(e: Evidence, category: Category) {
    exists doc <- e.confirmedCategory :: e.confirmedCategory[doc] == category
  }

  function EvaluateItem(item: Item, e: Evidence): ItemState {
    var documents := Documents(e, item.code);
    if item.code in e.waivers then ManuallyWaived
    else if !ConditionMet(item, e.conditions) then ItemNotApplicable
    else if documents != {} then
      if exists doc <- documents ::
        (item.requiresSeal && doc !in e.sealPresent) || (item.requiresSignature && doc !in e.signaturePresent)
      then PendingConfirmation else Satisfied
    else if HasCandidate(e, item.category) || ConfirmedAs(e, item.category) then PendingConfirmation
    else Missing
  }

  /** One state for each item code; of two items with one code the later would win. */
  function EvaluateItems(items: seq<Item>, e: Evidence): map<string, ItemState> {
    if items == [] then map[]
    else
      var last := items[|items| - 1];
      EvaluateItems(items[..|items| - 1], e)[last.code := EvaluateItem(last, e)]
  }

  lemma {:induction false} EachItemHasItsState(items: seq<Item>, e: Evidence)
    requires DistinctCodes(items)
    ensures forall i | 0 <= i < |items| ::
              && items[i].code in EvaluateItems(items, e)
              && EvaluateItems(items, e)[items[i].code] == EvaluateItem(items[i], e)
    ensures forall code <- EvaluateItems(items, e) :: exists i | 0 <= i < |items| :: items[i].code == code
  {
    if items != [] {
      var front := items[..|items| - 1];
      EachItemHasItsState(front, e);
      forall i | 0 <= i < |items|
        ensures items[i].code in EvaluateItems(items, e)
            && EvaluateItems(items, e)[items[i].code] == EvaluateItem(items[i], e)
      {
        if i < |front| { assert front[i] == items[i]; }
      }
      forall code <- EvaluateItems(items, e) ensures exists i | 0 <= i < |items| :: items[i].code == code {
        if code in EvaluateItems(front, e) {
          var i :| 0 <= i < |front| && front[i].code == code;
          assert items[i].code == code;
        } else {
          assert items[|items| - 1].code == code;
        }
      }
    }
  }

  /**
   * An item is satisfied only by what a person did: documents mapped to it, each with every seal and
   * signature it requires confirmed. Candidates and confirmed categories on their own never satisfy it.
   */
  lemma SatisfiedNeedsConfirmedEvidence(item: Item, e: Evidence)
    ensures EvaluateItem(item, e).Satisfied? <==>
              && item.code !in e.waivers && ConditionMet(item, e.conditions)
              && Documents(e, item.code) != {}
              && forall doc <- Documents(e, item.code) ::
                   && (item.requiresSeal ==> doc in e.sealPresent)
                   && (item.requiresSignature ==> doc in e.signaturePresent)
    ensures EvaluateItem(item, e).Missing? ==> !HasCandidate(e, item.category)
  {
  }

  /** The evidence is the same but for candidates, of which there may be more. */
  ghost predicate OnlyMoreCandidates(before: Evidence, after: Evidence) {
    && after == before.(candidates := after.candidates)
    && forall doc <- before.candidates :: doc in after.candidates && before.candidates[doc] <= after.candidates[doc]
  }

  /** What a frozen state can have become since: nothing else, unless it was missing and a candidate appeared. */
  function Since(frozen: ItemState, item: Item, e: Evidence): ItemState {
    if frozen.Missing? && HasCandidate(e, item.category) then PendingConfirmation else frozen
  }

  lemma CandidatesOnlyRaiseMissing(item: Item, before: Evidence, after: Evidence)
    requires OnlyMoreCandidates(before, after)
    ensures EvaluateItem(item, after) == Since(EvaluateItem(item, before), item, after)
    ensures forall frozen: ItemState ::
              EvaluateItem(item, before) == Since(frozen, item, before)
              ==> EvaluateItem(item, after) == Since(frozen, item, after)
  {
    if HasCandidate(before, item.category) {
      var doc :| doc in before.candidates && item.category in before.candidates[doc];
      assert item.category in after.candidates[doc];
    }
  }

  // ---------------------------------------------------------------------------
  // Evidence reviews
  // ---------------------------------------------------------------------------

  datatype ReviewKind = SealPresence | SignaturePresence

  datatype Presence = Present | Absent | Uncertain

  datatype Review = Review(doc: DocId, kind: ReviewKind, status: Presence)

  /** The newest review of its kind for its document. */
  predicate LatestReview(reviews: seq<Review>, kind: ReviewKind, i: int) {
    && 0 <= i < |reviews| && reviews[i].kind == kind
    && forall k | i < k < |reviews| :: !(reviews[k].kind == kind && reviews[k].doc == reviews[i].doc)
  }

  /** Documents whose newest review of the kind says present. */
  function LatestPresence(reviews: seq<Review>, kind: ReviewKind): set<DocId> {
    set i | 0 <= i < |reviews| && LatestReview(reviews, kind, i) && reviews[i].status.Present? :: reviews[i].doc
  }

  method LatestPresenceDocuments(reviews: seq<Review>, kind: ReviewKind) returns (present: set<DocId>)
    ensures present == LatestPresence(reviews, kind)
  {
    var latest: map<DocId, Presence> := map[];
    ghost var from: map<DocId, int> := map[];
    for i := 0 to |reviews|
      invariant latest.Keys == from.Keys
      invariant forall k | 0 <= k < i && reviews[k].kind == kind :: reviews[k].doc in from && k <= from[reviews[k].doc]
      invariant forall doc <- from ::
                  && 0 <= from[doc] < i && reviews[from[doc]].kind == kind && reviews[from[doc]].doc == doc
                  && latest[doc] == reviews[from[doc]].status
    {
      if reviews[i].kind == kind {
        latest := latest[reviews[i].doc := reviews[i].status];
        from := from[reviews[i].doc := i];
      }
    }
    present := set doc | doc in latest && latest[doc].Present?;
    forall doc ensures doc in present <==> doc in LatestPresence(reviews, kind) {
      if doc in present {
        assert LatestReview(reviews, kind, from[doc]);
      }
      if doc in LatestPresence(reviews, kind) {
        var i :| 0 <= i < |reviews| && LatestReview(reviews, kind, i) && reviews[i].status.Present?
            && reviews[i].doc == doc;
        assert from[doc] == i;
      }
    }
  }

  /** A newer review replaces what an older one said about its document, and nothing else. */
  lemma NewestReviewDecides(reviews: seq<Review>, r: Review, kind: ReviewKind)
    ensures LatestPresence(reviews + [r], kind) ==
              if r.kind != kind then LatestPresence(reviews, kind)
              else if r.status.Present? then LatestPresence(reviews, kind) + {r.doc}
              else LatestPresence(reviews, kind) - {r.doc}
  {
    var all, last := reviews + [r], |reviews|;
    assert forall i | 0 <= i < last :: all[i] == reviews[i];
    forall i | 0 <= i < last
      ensures LatestReview(all, kind, i)
         <==> (LatestReview(reviews, kind, i) && !(r.kind == kind && reviews[i].doc == r.doc))
    {
      assert all[last] == r;
    }
    assert LatestReview(all, kind, last) <==> r.kind == kind;
    forall doc
      ensures doc in LatestPresence(all, kind) <==>
                if r.kind == kind && doc == r.doc then r.status.Present? else doc in LatestPresence(reviews, kind)
    {
      if doc in LatestPresence(reviews, kind) && !(r.kind == kind && doc == r.doc) {
        var i :| 0 <= i < last && LatestReview(reviews, kind, i) && reviews[i].status.Present? && reviews[i].doc == doc;
        assert LatestReview(all, kind, i) && all[i].doc == doc;
      }
      if r.kind == kind && doc == r.doc && r.status.Present? {
        assert LatestReview(all, kind, last) && all[last].doc == doc;
      }
    }
  }
}
