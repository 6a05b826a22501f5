/** What a completeness report says, in terms of the rows it is made from. */
module Checklists {
  import opened Completeness
  import opened Reports
  import opened Requests
  import opened RuleCatalog
  import opened TemplateCatalog
  import opened Wrappers

  predicate HasCode(templates: seq<Template>, id: ItemId, code: string) {
    id.template < |templates| && id.index < |templates[id.template].items|
    && templates[id.template].items[id.index].code == code
  }

  predicate IsWaived(d: Dossier, templates: seq<Template>, code: string) {
    exists w <- d.waivers :: HasCode(templates, w, code)
  }

  predicate IsMapped(d: Dossier, templates: seq<Template>, code: string, doc: DocId) {
    exists m <- d.mappings :: m.doc == doc && HasCode(templates, m.item, code)
  }

  /** Some resolution, about whomever, has one of the field keys that the condition of the item stands for. */
  predicate ConditionHolds(d: Dossier, item: Item) {
    || item.condition.None?
    || (item.condition.value == "collateral" && exists r <- d.resolutions ::
          r.fieldKey in {"collateral_type", "collateral_certificate", "collateral_value"})
    || (item.condition.value == "guarantor" && exists r <- d.resolutions ::
          r.fieldKey in {"guarantor", "guarantee_method"})
  }

  /** The newest review of the kind for the document says present. */
  predicate IsPresent(d: Dossier, kind: ReviewKind, doc: DocId) {
    exists i | 0 <= i < |d.reviews| ::
      && d.reviews[i] == Review(doc, kind, Present)
      && forall k | i < k < |d.reviews| :: !(d.reviews[k].kind == kind && d.reviews[k].doc == doc)
  }

  predicate IsSealedAndSigned(d: Dossier, item: Item, doc: DocId) {
    (item.requiresSeal ==> IsPresent(d, SealPresence, doc))
    && (item.requiresSignature ==> IsPresent(d, SignaturePresence, doc))
  }

  /** Some document may be of the category, or has been confirmed to be. */
  predicate IsExpected(d: Dossier, category: Category) {
    || (exists doc <- d.candidates :: category in d.candidates[doc])
    || (exists doc <- d.categories :: d.categories[doc] == category)
  }

  /** What each state of an item says about the rows. */
  ghost predicate StateSays(d: Dossier, templates: seq<Template>, item: Item, state: ItemState) {
    var waived, applies := IsWaived(d, templates, item.code), ConditionHolds(d, item);
    match state
    case ManuallyWaived => waived
    case ItemNotApplicable => !waived && !applies
    case Satisfied =>
      && !waived && applies && (exists doc :: IsMapped(d, templates, item.code, doc))
      && forall doc | IsMapped(d, templates, item.code, doc) :: IsSealedAndSigned(d, item, doc)
    case PendingConfirmation =>
      && !waived && applies
      && if exists doc :: IsMapped(d, templates, item.code, doc)
         then exists doc :: IsMapped(d, templates, item.code, doc) && !IsSealedAndSigned(d, item, doc)
         else IsExpected(d, item.category)
    case Missing =>
      && !waived && applies && (forall doc :: !IsMapped(d, templates, item.code, doc))
      && !IsExpected(d, item.category)
  }

  lemma ConditionSays(d: Dossier, templates: seq<Template>, item: Item)
    ensures ConditionMet(item, EvidenceOf(d, templates).conditions) <==> ConditionHolds(d, item)
  {
    var keys := set r <- d.resolutions :: r.fieldKey;
    assert forall r <- d.resolutions :: r.fieldKey in keys;
    forall wanted: set<string>
      ensures keys * wanted != {} <==> exists r <- d.resolutions :: r.fieldKey in wanted
    {
      if key :| key in keys * wanted {
        var r :| r in d.resolutions && r.fieldKey == key;
      }
      if r :| r in d.resolutions && r.fieldKey in wanted {
        assert r.fieldKey in keys * wanted;
      }
    }
    assert "collateral" in CONDITION_KEYS && "guarantor" in CONDITION_KEYS;
    assert forall key <- CONDITION_KEYS :: key == "collateral" || key == "guarantor";
    assert "collateral" != "guarantor";
  }

  lemma WaiverSays(d: Dossier, templates: seq<Template>, code: string)
    ensures code in EvidenceOf(d, templates).waivers <==> IsWaived(d, templates, code)
  {
  }

  lemma MappingSays(d: Dossier, templates: seq<Template>, code: string, doc: DocId)
    ensures doc in Documents(EvidenceOf(d, templates), code) <==> IsMapped(d, templates, code, doc)
  {
    var e := EvidenceOf(d, templates);
    if m :| m in d.mappings && m.doc == doc && HasCode(templates, m.item, code) {
      assert ItemCode(templates, m.item) == code && code in e.mapped;
      assert doc in MappedDocuments(d.mappings, templates, code);
    }
    if doc in Documents(e, code) {
      var m :| m in d.mappings && IsItem(templates, m.item) && ItemCode(templates, m.item) == code && m.doc == doc;
      assert HasCode(templates, m.item, code);
    }
  }

  lemma PresenceSays(d: Dossier, kind: ReviewKind, doc: DocId)
    ensures doc in LatestPresence(d.reviews, kind) <==> IsPresent(d, kind, doc)
  {
    if doc in LatestPresence(d.reviews, kind) {
      var i :| 0 <= i < |d.reviews| && LatestReview(d.reviews, kind, i) && d.reviews[i].status.Present?
          && d.reviews[i].doc == doc;
      assert d.reviews[i] == Review(doc, kind, Present);
    }
    if IsPresent(d, kind, doc) {
      var i :| 0 <= i < |d.reviews| && d.reviews[i] == Review(doc, kind, Present)
        && forall k | i < k < |d.reviews| :: !(d.reviews[k].kind == kind && d.reviews[k].doc == doc);
      assert LatestReview(d.reviews, kind, i);
    }
  }

  lemma DocumentsSay(d: Dossier, templates: seq<Template>, item: Item, documents: set<DocId>)
    requires documents == Documents(EvidenceOf(d, templates), item.code)
    ensures documents != {} <==> exists doc :: IsMapped(d, templates, item.code, doc)
    ensures forall doc :: doc in documents <==> IsMapped(d, templates, item.code, doc)
    ensures forall doc <- documents :: IsSealedAndSigned(d, item, doc) <==>
              && (item.requiresSeal ==> doc in EvidenceOf(d, templates).sealPresent)
              && (item.requiresSignature ==> doc in EvidenceOf(d, templates).signaturePresent)
  {
    forall doc ensures doc in documents <==> IsMapped(d, templates, item.code, doc) {
      MappingSays(d, templates, item.code, doc);
    }
    forall doc ensures doc in LatestPresence(d.reviews, SealPresence) <==> IsPresent(d, SealPresence, doc) {
      PresenceSays(d, SealPresence, doc);
    }
    forall doc ensures doc in LatestPresence(d.reviews, SignaturePresence) <==> IsPresent(d, SignaturePresence, doc) {
      PresenceSays(d, SignaturePresence, doc);
    }
    if documents != {} {
      var doc :| doc in documents;
      assert IsMapped(d, templates, item.code, doc);
    }
  }

  lemma ExpectedSays(d: Dossier, templates: seq<Template>, category: Category)
    ensures var e := EvidenceOf(d, templates);
            HasCandidate(e, category) || ConfirmedAs(e, category) <==> IsExpected(d, category)
  {
  }

  lemma StateFollows(d: Dossier, templates: seq<Template>, item: Item)
    ensures StateSays(d, templates, item, EvaluateItem(item, EvidenceOf(d, templates)))
  {
    var e := EvidenceOf(d, templates);
    WaiverSays(d, templates, item.code);
    ConditionSays(d, templates, item);
    ExpectedSays(d, templates, item.category);
    DocumentsSay(d, templates, item, Documents(e, item.code));
    SatisfiedNeedsConfirmedEvidence(item, e);
  }

  lemma StatesExclude(d: Dossier, templates: seq<Template>, item: Item, a: ItemState, b: ItemState)
    requires StateSays(d, templates, item, a) && StateSays(d, templates, item, b)
    ensures a == b
  {
  }

  /** The state of an item is exactly the one whose condition the rows meet. */
  lemma ItemStateSays(d: Dossier, templates: seq<Template>, item: Item, state: ItemState)
    ensures EvaluateItem(item, EvidenceOf(d, templates)) == state <==> StateSays(d, templates, item, state)
  {
    StateFollows(d, templates, item);
    if StateSays(d, templates, item, state) {
      StatesExclude(d, templates, item, EvaluateItem(item, EvidenceOf(d, templates)), state);
    }
  }

  // ---------------------------------------------------------------------------
  // The report
  // ---------------------------------------------------------------------------

  /** A template that is published for the product and the type of the borrower. */
  predicate IsFor(d: Dossier, c: Catalog, id: TemplateId) {
    id < |c.templates| && c.templates[id].status == Published
    && c.templates[id].product == d.profile.product && c.templates[id].borrowerType == d.profile.borrowerType
  }

  lemma ApplicableSays(d: Dossier, c: Catalog, id: TemplateId)
    requires OnePublished(c.templates)
    ensures IsFor(d, c, id) <==> Applicable(d, c) == Some(id)
  {
    if IsFor(d, c, id) {
      var found := Applicable(d, c);
      assert Applies(c.templates[id], d.profile.product, d.profile.borrowerType);
      assert found.Some? && SameKey(c.templates[id], c.templates[found.value]);
    }
  }

  /** A current run becomes stale for a new one; a stale run stays as it is. */
  predicate Superseded(before: CheckRun, after: CheckRun) {
    after == if before.status == Stale then before else before.(status := Stale, staleReason := Some(NewRun))
  }

  ghost predicate Freezes(run: CheckRun, d: Dossier, c: Catalog) {
    && run.status == Current && run.staleReason.None?
    && IsFor(d, c, run.templateId) && run.templateSnapshot == c.templates[run.templateId]
    && (forall item <- run.templateSnapshot.items ::
          item.code in run.states && StateSays(d, c.templates, item, run.states[item.code]))
    && forall code <- run.states :: exists item <- run.templateSnapshot.items :: item.code == code
  }

  lemma NewRunFreezes(d: Dossier, c: Catalog, id: TemplateId, run: CheckRun)
    requires OnePublished(c.templates) && IsFor(d, c, id)
    requires run == CheckRun(id, c.templates[id],
                             EvaluateItems(c.templates[id].items, EvidenceOf(d, c.templates)), Current, None)
    ensures Freezes(run, d, c)
  {
    var items := c.templates[id].items;
    EachItemHasItsState(items, EvidenceOf(d, c.templates));
    forall item <- items
      ensures item.code in run.states && StateSays(d, c.templates, item, run.states[item.code])
    {
      var i :| 0 <= i < |items| && items[i] == item;
      StateFollows(d, c.templates, item);
    }
  }

  /**
   * A completeness report is the newest run and the only current one. It is of the template published for the
   * application, and freezes for each of its items the one state whose condition the rows meet.
   */
  lemma ChecklistSays(d: Dossier, c: Catalog, docs: set<DocId>, today: Date)
    requires OnePublished(c.templates)
    ensures var (after, outcome) := Serve(d, c, docs, today, CreateCheckRun);
            && (!outcome.Accepted? ==> after == d)
            && (outcome.Accepted? ==>
                  var runs := after.checkRuns;
                  && after == d.(checkRuns := runs) && |runs| == |d.checkRuns| + 1
                  && (forall n | 0 <= n < |d.checkRuns| :: Superseded(d.checkRuns[n], runs[n]))
                  && Freezes(runs[|d.checkRuns|], d, c))
  {
    var (after, outcome) := Serve(d, c, docs, today, CreateCheckRun);
    if outcome.Accepted? {
      var id := Applicable(d, c).value;
      ApplicableSays(d, c, id);
      NewRunFreezes(d, c, id, after.checkRuns[|d.checkRuns|]);
    }
  }
}
