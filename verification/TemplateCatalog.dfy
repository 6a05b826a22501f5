/** Completeness templates: their administration and the template that applies to an application. */
module TemplateCatalog {
  import opened Requests
  import opened Wrappers

  datatype Category = BasicInfo | Operation | LoanApplication | Purpose | Credit | Collateral | Other

  datatype BorrowerType = Corporate | Individual

  datatype TemplateStatus = Drafted | Published | Withdrawn

  /** A checklist item; a condition names what the application must have for the item to apply. */
  datatype Item = Item(
    code: string, category: Category, requiresSeal: bool, requiresSignature: bool, condition: Option<string>)

  /** A row of the template table with its items. Rows are never deleted, so the position of a row is its id. */
  datatype Template = Template(
    code: string, name: string, version: nat, status: TemplateStatus,
    product: string, borrowerType: BorrowerType, demoOnly: bool, items: seq<Item>)

  type TemplateId = nat

  const CONDITION_KEYS := ["collateral", "guarantor"]

  predicate ValidItem(item: Item) {
    item.code != "" && (item.condition.Some? ==> item.condition.value in CONDITION_KEYS)
  }

  ghost predicate DistinctCodes(items: seq<Item>) {
    forall i, j | 0 <= i < j < |items| :: items[i].code != items[j].code
  }

  ghost predicate ValidItems(items: seq<Item>) {
    && DistinctCodes(items)
    && forall i | 0 <= i < |items| :: ValidItem(items[i])
  }

  method ValidateTemplateItems(items: seq<Item>) returns (valid: bool)
    ensures valid <==> ValidItems(items)
  {
    var codes: set<string> := {};
    for i := 0 to |items|
      invariant codes == set k | 0 <= k < i :: items[k].code
      invariant ValidItems(items[..i])
    {
      assert items[..i + 1][i] == items[i];
      if items[i].code == "" {
        assert !ValidItem(items[i]);
        return false;
      }
      if items[i].code in codes {
        var k :| 0 <= k < i && items[k].code == items[i].code;
        return false;
      }
      codes := codes + {items[i].code};
      if !ValidItem(items[i]) {
        return false;
      }
    }
    assert items[..|items|] == items;
    return true;
  }

  predicate SameKey(a: Template, b: Template) {
    a.product == b.product && a.borrowerType == b.borrowerType
  }

  function LatestTemplateVersion(templates: seq<Template>, code: string): nat {
    if templates == [] then 0
    else
      var last := templates[|templates| - 1];
      var before := LatestTemplateVersion(templates[..|templates| - 1], code);
      if last.code == code && last.version > before then last.version else before
  }

  datatype TemplateRequest =
    | CreateTemplate(template: Template)
    | UpdateTemplate(id: TemplateId, name: string, items: seq<Item>)
    | PublishTemplate(id: TemplateId)
    | CopyTemplate(id: TemplateId)
    | RetireTemplate(id: TemplateId)

  ghost function ServeTemplate(templates: seq<Template>, request: TemplateRequest): (seq<Template>, Outcome) {
    match request
    case CreateTemplate(t) =>
      if !ValidItems(t.items) then (templates, Unprocessable)
      else if exists i | 0 <= i < |templates| :: templates[i].code == t.code then (templates, Conflict)
      else (templates + [t.(version := 1, status := Drafted)], Accepted)
    case UpdateTemplate(id, name, items) =>
      if id >= |templates| then (templates, NotFound)
      else if !templates[id].status.Drafted? then (templates, Conflict)
      else if !ValidItems(items) then (templates, Unprocessable)
      else (templates[id := templates[id].(name := name, items := items)], Accepted)
    case PublishTemplate(id) =>
      if id >= |templates| then (templates, NotFound)
      else if !templates[id].status.Drafted?
          || ApplicableTemplate(templates, templates[id].product, templates[id].borrowerType).Some?
      then (templates, Conflict)
      else (templates[id := templates[id].(status := Published)], Accepted)
    case CopyTemplate(id) =>
      if id >= |templates| then (templates, NotFound)
      else
        var version := LatestTemplateVersion(templates, templates[id].code) + 1;
        (templates + [templates[id].(version := version, status := Drafted)], Accepted)
    case RetireTemplate(id) =>
      if id >= |templates| then (templates, NotFound)
      else if !templates[id].status.Published? then (templates, Conflict)
      else (templates[id := templates[id].(status := Withdrawn)], Accepted)
  }

  predicate Applies(t: Template, product: string, borrowerType: BorrowerType) {
    t.status.Published? && t.product == product && t.borrowerType == borrowerType
  }

  /** The first published template for a product and borrower type. */
  function ApplicableTemplate(templates: seq<Template>, product: string, borrowerType: BorrowerType)
    : (id: Option<TemplateId>)
    ensures id.Some? ==> id.value < |templates| && Applies(templates[id.value], product, borrowerType)
    ensures id.None? ==> forall i | 0 <= i < |templates| :: !Applies(templates[i], product, borrowerType)
  {
    if templates == [] then None
    else
      var last := |templates| - 1;
      var before := ApplicableTemplate(templates[..last], product, borrowerType);
      if before.Some? then before
      else if Applies(templates[last], product, borrowerType) then Some(last) else None
  }

  class TemplateAdmin {
    var templates: seq<Template>

    constructor ()
      ensures templates == []
    {
      templates := [];
    }

    method Create(t: Template) returns (outcome: Outcome)
      modifies this
      ensures (templates, outcome) == ServeTemplate(old(templates), CreateTemplate(t))
    {
      var valid := ValidateTemplateItems(t.items);
      if !valid {
        return Unprocessable;
      }
      if exists i | 0 <= i < |templates| :: templates[i].code == t.code {
        return Conflict;
      }
      templates := templates + [t.(version := 1, status := Drafted)];
      return Accepted;
    }

    /** The items of a draft are deleted and added again one by one. */
    method Update(id: TemplateId, name: string, items: seq<Item>) returns (outcome: Outcome)
      modifies this
      ensures (templates, outcome) == ServeTemplate(old(templates), UpdateTemplate(id, name, items))
    {
      if id >= |templates| {
        return NotFound;
      }
      if !templates[id].status.Drafted? {
        return Conflict;
      }
      var valid := ValidateTemplateItems(items);
      if !valid {
        return Unprocessable;
      }
      templates := templates[id := templates[id].(name := name, items := [])];
      for k := 0 to |items|
        invariant |templates| == |old(templates)|
        invariant templates == old(templates)[id := old(templates)[id].(name := name, items := items[..k])]
      {
        templates := templates[id := templates[id].(items := templates[id].items + [items[k]])];
        assert items[..k + 1] == items[..k] + [items[k]];
      }
      assert items[..|items|] == items;
      return Accepted;
    }

    method Publish(id: TemplateId) returns (outcome: Outcome)
      modifies this
      ensures (templates, outcome) == ServeTemplate(old(templates), PublishTemplate(id))
    {
      if id >= |templates| {
        return NotFound;
      }
      var t := templates[id];
      if !t.status.Drafted? {
        return Conflict;
      }
      var published := ApplicableTemplate(templates, t.product, t.borrowerType);
      if published.Some? && published.value != id {
        return Conflict;
      }
      templates := templates[id := t.(status := Published)];
      return Accepted;
    }

    method Copy(id: TemplateId) returns (outcome: Outcome)
      modifies this
      ensures (templates, outcome) == ServeTemplate(old(templates), CopyTemplate(id))
    {
      if id >= |templates| {
        return NotFound;
      }
      var latest := LatestTemplateVersion(templates, templates[id].code);
      templates := templates + [templates[id].(version := latest + 1, status := Drafted)];
      return Accepted;
    }

    method Retire(id: TemplateId) returns (outcome: Outcome)
      modifies this
      ensures (templates, outcome) == ServeTemplate(old(templates), RetireTemplate(id))
    {
      if id >= |templates| {
        return NotFound;
      }
      if !templates[id].status.Published? {
        return Conflict;
      }
      templates := templates[id := templates[id].(status := Withdrawn)];
      return Accepted;
    }
  }

  /** Every template is valid and no two published ones have the same product and borrower type. */
  ghost predicate OnePublished(templates: seq<Template>) {
    && (forall i | 0 <= i < |templates| :: ValidItems(templates[i].items))
    && forall i, j | 0 <= i < j < |templates| && templates[i].status.Published? && templates[j].status.Published? ::
         !SameKey(templates[i], templates[j])
  }

  ghost predicate TemplatesFrozen(before: seq<Template>, after: seq<Template>) {
    && |before| <= |after|
    && forall i | 0 <= i < |before| && !before[i].status.Drafted? ::
         && after[i] == before[i].(status := after[i].status)
         && (after[i].status == before[i].status || (before[i].status.Published? && after[i].status.Withdrawn?))
  }

  /** No request makes two templates applicable at once, and none changes a template that has been published. */
  lemma ServeTemplateKeeps(templates: seq<Template>, request: TemplateRequest)
    requires OnePublished(templates)
    ensures OnePublished(ServeTemplate(templates, request).0)
    ensures TemplatesFrozen(templates, ServeTemplate(templates, request).0)
  {
  }

  ghost function ServeTemplates(templates: seq<Template>, requests: seq<TemplateRequest>): seq<Template>
    decreases |requests|
  {
    if requests == [] then templates
    else ServeTemplates(ServeTemplate(templates, requests[0]).0, requests[1..])
  }

  /** Over all runs from an empty or consistently seeded table, the template that applies is unique. */
  lemma {:induction false} ApplicableTemplateIsUnique(
    start: seq<Template>, requests: seq<TemplateRequest>, product: string, borrowerType: BorrowerType)
    requires OnePublished(start)
    ensures var templates := ServeTemplates(start, requests);
            && OnePublished(templates) && TemplatesFrozen(start, templates)
            && forall i | 0 <= i < |templates| ::
                 Applies(templates[i], product, borrowerType) <==>
                 ApplicableTemplate(templates, product, borrowerType) == Some(i)
    decreases |requests|
  {
    if requests == [] {
      forall i | 0 <= i < |start|
        ensures Applies(start[i], product, borrowerType)
            <==> ApplicableTemplate(start, product, borrowerType) == Some(i)
      {
        var id := ApplicableTemplate(start, product, borrowerType);
        assert id.Some? && Applies(start[i], product, borrowerType) ==> SameKey(start[i], start[id.value]);
      }
    } else {
      ServeTemplateKeeps(start, requests[0]);
      ApplicableTemplateIsUnique(ServeTemplate(start, requests[0]).0, requests[1..], product, borrowerType);
    }
  }

  // ---------------------------------------------------------------------------
  // What each request does
  // ---------------------------------------------------------------------------

  predicate OnlyKnownConditions(items: seq<Item>) {
    forall item <- items :: item.code != "" && item.condition in {None, Some("collateral"), Some("guarantor")}
  }

  lemma ItemsSay(items: seq<Item>)
    ensures ValidItems(items) <==> OnlyKnownConditions(items) && DistinctCodes(items)
  {
    forall i | 0 <= i < |items|
      ensures ValidItem(items[i]) <==>
                items[i].code != "" && items[i].condition in {None, Some("collateral"), Some("guarantor")}
    {
      if items[i].condition.Some? { ConditionKeysSay(items[i].condition.value); }
    }
    assert OnlyKnownConditions(items) <==> forall i | 0 <= i < |items| :: ValidItem(items[i]) by {
      forall item | item in items && forall i | 0 <= i < |items| :: ValidItem(items[i])
        ensures item.code != "" && item.condition in {None, Some("collateral"), Some("guarantor")}
      {
        var i :| 0 <= i < |items| && items[i] == item;
      }
    }
  }

  lemma ConditionKeysSay(key: string)
    ensures key in CONDITION_KEYS <==> key == "collateral" || key == "guarantor"
  {
    assert CONDITION_KEYS[0] == "collateral" && CONDITION_KEYS[1] == "guarantor";
  }

  /** Published for the same product and borrower type. */
  predicate Rivals(a: Template, b: Template) {
    b.status == Published && b.product == a.product && b.borrowerType == a.borrowerType
  }

  /** A draft is published unless a rival is published already; nothing else changes. */
  lemma PublishSays(templates: seq<Template>, id: TemplateId)
    ensures var (after, outcome) := ServeTemplate(templates, PublishTemplate(id));
            && outcome == (if id >= |templates| then NotFound
                           else if templates[id].status == Drafted
                               && forall t <- templates :: !Rivals(templates[id], t) then Accepted
                           else Conflict)
            && after == if outcome.Accepted? then templates[id := templates[id].(status := Published)] else templates
  {
    if id < |templates| {
      var found := ApplicableTemplate(templates, templates[id].product, templates[id].borrowerType);
      assert found.Some? ==> templates[found.value] in templates && Rivals(templates[id], templates[found.value]);
    }
  }

  lemma TemplateEditsSay(templates: seq<Template>, t: Template, id: TemplateId)
    ensures var (after, outcome) := ServeTemplate(templates, CreateTemplate(t));
            && outcome == (if !(OnlyKnownConditions(t.items) && DistinctCodes(t.items)) then Unprocessable
                           else if exists other <- templates :: other.code == t.code then Conflict else Accepted)
            && after == templates + if outcome.Accepted? then [t.(version := 1, status := Drafted)] else []
    ensures var (after, outcome) := ServeTemplate(templates, UpdateTemplate(id, t.name, t.items));
            && outcome == (if id >= |templates| then NotFound
                           else if templates[id].status != Drafted then Conflict
                           else if OnlyKnownConditions(t.items) && DistinctCodes(t.items) then Accepted
                           else Unprocessable)
            && after == if !outcome.Accepted? then templates
                        else templates[id := t.(code := templates[id].code, version := templates[id].version,
                                                status := Drafted, product := templates[id].product,
                                                borrowerType := templates[id].borrowerType,
                                                demoOnly := templates[id].demoOnly)]
    ensures var (after, outcome) := ServeTemplate(templates, RetireTemplate(id));
            && outcome == (if id >= |templates| then NotFound
                           else if templates[id].status == Published then Accepted else Conflict)
            && after == if outcome.Accepted? then templates[id := templates[id].(status := Withdrawn)] else templates
  {
    ItemsSay(t.items);
    if other :| other in templates && other.code == t.code {
      var i :| 0 <= i < |templates| && templates[i] == other;
    }
    if i :| 0 <= i < |templates| && templates[i].code == t.code {
      assert templates[i] in templates;
    }
  }

  lemma {:induction false} LatestTemplateIsHighest(templates: seq<Template>, code: string)
    ensures forall t <- templates | t.code == code :: t.version <= LatestTemplateVersion(templates, code)
    ensures LatestTemplateVersion(templates, code) == 0
            || exists t <- templates :: t.code == code && t.version == LatestTemplateVersion(templates, code)
  {
    if templates != [] {
      LatestTemplateIsHighest(templates[..|templates| - 1], code);
      assert templates == templates[..|templates| - 1] + [templates[|templates| - 1]];
    }
  }

  /** A copy is a draft with the content of the template and the version after the highest of its code. */
  lemma CopyTemplateSays(templates: seq<Template>, id: TemplateId)
    ensures var (after, outcome) := ServeTemplate(templates, CopyTemplate(id));
            && outcome == (if id < |templates| then Accepted else NotFound)
            && (outcome.NotFound? ==> after == templates)
            && (outcome.Accepted? ==>
                  && |after| == |templates| + 1 && after[..|templates|] == templates
                  && after[|templates|] == templates[id].(version := after[|templates|].version, status := Drafted)
                  && (forall t <- templates | t.code == templates[id].code :: t.version < after[|templates|].version)
                  && exists t <- templates ::
                       t.code == templates[id].code && t.version + 1 == after[|templates|].version)
  {
    if id < |templates| {
      LatestTemplateIsHighest(templates, templates[id].code);
      assert templates[id] in templates;
      assert LatestTemplateVersion(templates, templates[id].code) == 0 ==> templates[id].version == 0;
    }
  }

  /** Code and version together name one template. */
  ghost predicate DistinctTemplateVersions(templates: seq<Template>) {
    forall i, j | 0 <= i < j < |templates| ::
      templates[i].code != templates[j].code || templates[i].version != templates[j].version
  }

  lemma ServeTemplateKeepsVersions(templates: seq<Template>, request: TemplateRequest)
    requires DistinctTemplateVersions(templates)
    ensures DistinctTemplateVersions(ServeTemplate(templates, request).0)
  {
    match request
    case CreateTemplate(t) => TemplateEditsSay(templates, t, 0);
    case UpdateTemplate(id, name, items) =>
    case PublishTemplate(id) =>
    case CopyTemplate(id) => CopyTemplateSays(templates, id);
    case RetireTemplate(id) =>
  }

  lemma {:induction false} TemplateVersionsStayDistinct(templates: seq<Template>, requests: seq<TemplateRequest>)
    requires DistinctTemplateVersions(templates)
    ensures DistinctTemplateVersions(ServeTemplates(templates, requests))
    decreases |requests|
  {
    if requests != [] {
      ServeTemplateKeepsVersions(templates, requests[0]);
      TemplateVersionsStayDistinct(ServeTemplate(templates, requests[0]).0, requests[1..]);
    }
  }
}
