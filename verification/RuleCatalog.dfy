/** Rule packages: their administration, the overlap test, and the selection of a primary rule. */
module RuleCatalog {
  import opened Requests
  import opened Wrappers

  /** Proleptic ordinals of the calendar; the last one is 9999-12-31. */
  type Date = d: int | 1 <= d <= MAX_DATE witness 1
  const MAX_DATE: int := 3652059

  datatype RuleKind = Hard | Reference
  datatype RuleStatus = Draft | Approved | Retired

  datatype Calc =
    | AnnualRateLimit(thresholdPct: real)
    | LprMultipleLimit(multiplier: real)
    | EffectiveCostLimit(thresholdPct: real, overdueDays: int)

  datatype Scope = Scope(qualification: string, context: string, product: string)

  /** A row of the rule table. Rows are never deleted, so the position of a row is its id. */
  datatype Rule = Rule(
    code: string, version: nat, kind: RuleKind, status: RuleStatus, scope: Scope,
    effectiveFrom: Date, effectiveUntil: Option<Date>, formula: Calc, demoOnly: bool, wording: string)

  type RuleId = nat

  // ---------------------------------------------------------------------------
  // Intervals
  // ---------------------------------------------------------------------------

  function LastDay(until: Option<Date>): Date {
    if until.Some? then until.value else MAX_DATE
  }

  predicate IntervalsOverlap(aFrom: Date, aUntil: Option<Date>, bFrom: Date, bUntil: Option<Date>) {
    aFrom <= LastDay(bUntil) && bFrom <= LastDay(aUntil)
  }

  predicate Covers(from: Date, until: Option<Date>, day: Date) {
    from <= day && (until.Some? ==> until.value >= day)
  }

  /** For intervals that hold at least one day the test is exact: true iff some day lies in both. */
  lemma OverlapIsExact(aFrom: Date, aUntil: Option<Date>, bFrom: Date, bUntil: Option<Date>)
    requires aFrom <= LastDay(aUntil) && bFrom <= LastDay(bUntil)
    ensures IntervalsOverlap(aFrom, aUntil, bFrom, bUntil)
       <==> exists day: Date :: Covers(aFrom, aUntil, day) && Covers(bFrom, bUntil, day)
  {
    var later := if aFrom <= bFrom then bFrom else aFrom;
    if IntervalsOverlap(aFrom, aUntil, bFrom, bUntil) {
      assert Covers(aFrom, aUntil, later) && Covers(bFrom, bUntil, later);
    }
  }

  /** For any two intervals: the test disagrees with the common day exactly when it says yes to an inverted one. */
  lemma OverlapNeedsValidIntervals(aFrom: Date, aUntil: Option<Date>, bFrom: Date, bUntil: Option<Date>)
    ensures var common := exists day: Date :: Covers(aFrom, aUntil, day) && Covers(bFrom, bUntil, day);
            (IntervalsOverlap(aFrom, aUntil, bFrom, bUntil) <==> common) <==>
            !(IntervalsOverlap(aFrom, aUntil, bFrom, bUntil) && (aFrom > LastDay(aUntil) || bFrom > LastDay(bUntil)))
  {
    if aFrom <= LastDay(aUntil) && bFrom <= LastDay(bUntil) {
      OverlapIsExact(aFrom, aUntil, bFrom, bUntil);
    }
  }

  // ---------------------------------------------------------------------------
  // Administration
  // ---------------------------------------------------------------------------

  predicate ValidCalc(formula: Calc) {
    match formula
    case AnnualRateLimit(threshold) => threshold > 0.0
    case LprMultipleLimit(multiplier) => multiplier > 0.0
    case EffectiveCostLimit(threshold, overdueDays) => threshold > 0.0 && overdueDays >= 0
  }

  predicate SameCalcType(a: Calc, b: Calc) {
    || (a.AnnualRateLimit? && b.AnnualRateLimit?)
    || (a.LprMultipleLimit? && b.LprMultipleLimit?)
    || (a.EffectiveCostLimit? && b.EffectiveCostLimit?)
  }

  predicate ValidRuleInput(formula: Calc, from: Date, until: Option<Date>) {
    ValidCalc(formula) && (until.Some? ==> from <= until.value)
  }

  predicate Clash(a: Rule, b: Rule) {
    && a.scope == b.scope
    && IntervalsOverlap(a.effectiveFrom, a.effectiveUntil, b.effectiveFrom, b.effectiveUntil)
  }

  predicate ApprovedHard(rule: Rule) {
    rule.kind.Hard? && rule.status.Approved?
  }

  function LatestVersion(rules: seq<Rule>, code: string): nat {
    if rules == [] then 0
    else
      var last, before := rules[|rules| - 1], LatestVersion(rules[..|rules| - 1], code);
      if last.code == code && last.version > before then last.version else before
  }

  function CreateRule(rules: seq<Rule>, r: Rule): (seq<Rule>, Outcome) {
    if !ValidRuleInput(r.formula, r.effectiveFrom, r.effectiveUntil) then (rules, Unprocessable)
    else if exists i | 0 <= i < |rules| :: rules[i].code == r.code then (rules, Conflict)
    else (rules + [r.(version := 1, status := Draft)], Accepted)
  }

  /** Editing keeps the code, kind, scope and calculation type of a draft. */
  function UpdateRule(rules: seq<Rule>, id: RuleId, edit: Rule): (seq<Rule>, Outcome) {
    if id >= |rules| then (rules, NotFound)
    else if !rules[id].status.Draft? then (rules, Conflict)
    else if !SameCalcType(rules[id].formula, edit.formula)
         || !ValidRuleInput(edit.formula, edit.effectiveFrom, edit.effectiveUntil) then (rules, Unprocessable)
    else (rules[id := rules[id].(
            effectiveFrom := edit.effectiveFrom, effectiveUntil := edit.effectiveUntil,
            formula := edit.formula, wording := edit.wording)], Accepted)
  }

  function ApproveRule(rules: seq<Rule>, id: RuleId): (seq<Rule>, Outcome) {
    if id >= |rules| then (rules, NotFound)
    else if !rules[id].status.Draft? then (rules, Conflict)
    else if rules[id].kind.Hard?
         && (exists i | 0 <= i < |rules| :: ApprovedHard(rules[i]) && Clash(rules[id], rules[i])) then (rules, Conflict)
    else (rules[id := rules[id].(status := Approved)], Accepted)
  }

  function CopyRule(rules: seq<Rule>, id: RuleId): (seq<Rule>, Outcome) {
    if id >= |rules| then (rules, NotFound)
    else (rules + [rules[id].(version := LatestVersion(rules, rules[id].code) + 1, status := Draft)], Accepted)
  }

  function RetireRule(rules: seq<Rule>, id: RuleId): (seq<Rule>, Outcome) {
    if id >= |rules| then (rules, NotFound)
    else if !rules[id].status.Approved? then (rules, Conflict)
    else (rules[id := rules[id].(status := Retired)], Accepted)
  }

  class RuleAdmin {
    var rules: seq<Rule>

    constructor ()
      ensures rules == []
    {
      rules := [];
    }

    method Create(r: Rule) returns (outcome: Outcome)
      modifies this
      ensures (rules, outcome) == CreateRule(old(rules), r)
    {
      if !ValidRuleInput(r.formula, r.effectiveFrom, r.effectiveUntil) {
        return Unprocessable;
      }
      if exists i | 0 <= i < |rules| :: rules[i].code == r.code {
        return Conflict;
      }
      rules := rules + [r.(version := 1, status := Draft)];
      return Accepted;
    }

    method Update(id: RuleId, edit: Rule) returns (outcome: Outcome)
      modifies this
      ensures (rules, outcome) == UpdateRule(old(rules), id, edit)
    {
      if id >= |rules| {
        return NotFound;
      }
      var rule := rules[id];
      if !rule.status.Draft? {
        return Conflict;
      }
      if !SameCalcType(rule.formula, edit.formula)
          || !ValidRuleInput(edit.formula, edit.effectiveFrom, edit.effectiveUntil) {
        return Unprocessable;
      }
      rule := rule.(effectiveFrom := edit.effectiveFrom, effectiveUntil := edit.effectiveUntil);
      rule := rule.(formula := edit.formula, wording := edit.wording);
      rules := rules[id := rule];
      return Accepted;
    }

    /** A hard rule is checked against each approved hard rule of its scope in turn. */
    method Approve(id: RuleId) returns (outcome: Outcome)
      modifies this
      ensures (rules, outcome) == ApproveRule(old(rules), id)
    {
      if id >= |rules| {
        return NotFound;
      }
      var rule := rules[id];
      if !rule.status.Draft? {
        return Conflict;
      }
      if rule.kind.Hard? {
        for i := 0 to |rules|
          invariant rules == old(rules)
          invariant forall k | 0 <= k < i :: !(ApprovedHard(rules[k]) && Clash(rule, rules[k]))
        {
          if ApprovedHard(rules[i]) && Clash(rule, rules[i]) {
            return Conflict;
          }
        }
      }
      rules := rules[id := rule.(status := Approved)];
      return Accepted;
    }

    method Copy(id: RuleId) returns (outcome: Outcome)
      modifies this
      ensures (rules, outcome) == CopyRule(old(rules), id)
    {
      if id >= |rules| {
        return NotFound;
      }
      var latest := LatestVersion(rules, rules[id].code);
      rules := rules + [rules[id].(version := latest + 1, status := Draft)];
      return Accepted;
    }

    method Retire(id: RuleId) returns (outcome: Outcome)
      modifies this
      ensures (rules, outcome) == RetireRule(old(rules), id)
    {
      if id >= |rules| {
        return NotFound;
      }
      if !rules[id].status.Approved? {
        return Conflict;
      }
      rules := rules[id := rules[id].(status := Retired)];
      return Accepted;
    }
  }

  // ---------------------------------------------------------------------------
  // Every run of the administration
  // ---------------------------------------------------------------------------

  datatype RuleRequest =
    | Create(rule: Rule) | Update(id: RuleId, edit: Rule)
    | Approve(id: RuleId) | Copy(id: RuleId) | Retire(id: RuleId)

  function ServeRule(rules: seq<Rule>, request: RuleRequest): seq<Rule> {
    match request
    case Create(rule) => CreateRule(rules, rule).0
    case Update(id, edit) => UpdateRule(rules, id, edit).0
    case Approve(id) => ApproveRule(rules, id).0
    case Copy(id) => CopyRule(rules, id).0
    case Retire(id) => RetireRule(rules, id).0
  }

  ghost predicate Unambiguous(rules: seq<Rule>) {
    && (forall i | 0 <= i < |rules| ::
        ValidRuleInput(rules[i].formula, rules[i].effectiveFrom, rules[i].effectiveUntil))
    && forall i, j | 0 <= i < j < |rules| && ApprovedHard(rules[i]) && ApprovedHard(rules[j]) ::
         !Clash(rules[i], rules[j])
  }

  lemma ServeKeepsUnambiguous(rules: seq<Rule>, request: RuleRequest)
    requires Unambiguous(rules)
    ensures Unambiguous(ServeRule(rules, request))
  {
  }

  /** Once a rule has left the draft state its content is frozen, and it can only go on to be retired. */
  ghost predicate Frozen(before: seq<Rule>, after: seq<Rule>) {
    && |before| <= |after|
    && forall i | 0 <= i < |before| && !before[i].status.Draft? ::
         && after[i] == before[i].(status := after[i].status)
         && (after[i].status == before[i].status || (before[i].status.Approved? && after[i].status.Retired?))
  }

  lemma ServeFreezes(rules: seq<Rule>, request: RuleRequest)
    ensures Frozen(rules, ServeRule(rules, request))
  {
  }

  ghost function ServeRules(rules: seq<Rule>, requests: seq<RuleRequest>): seq<Rule>
    decreases |requests|
  {
    if requests == [] then rules else ServeRules(ServeRule(rules, requests[0]), requests[1..])
  }

  /** From an empty table, or any unambiguous seed, no sequence of requests makes approved hard rules clash. */
  lemma {:induction false} RunsStayUnambiguous(rules: seq<Rule>, requests: seq<RuleRequest>)
    requires Unambiguous(rules)
    ensures Unambiguous(ServeRules(rules, requests)) && Frozen(rules, ServeRules(rules, requests))
    decreases |requests|
  {
    if requests != [] {
      ServeKeepsUnambiguous(rules, requests[0]);
      ServeFreezes(rules, requests[0]);
      RunsStayUnambiguous(ServeRule(rules, requests[0]), requests[1..]);
    }
  }

  // ---------------------------------------------------------------------------
  // What each request does
  // ---------------------------------------------------------------------------

  predicate InForceOn(rule: Rule, day: Date) {
    rule.effectiveFrom <= day && (rule.effectiveUntil.Some? ==> day <= rule.effectiveUntil.value)
  }

  /** An approved hard rule of the same scope that is in force on some day on which this one would be. */
  ghost predicate InTheWay(rule: Rule, other: Rule) {
    && other.kind == Hard && other.status == Approved && other.scope == rule.scope
    && exists day: Date :: InForceOn(rule, day) && InForceOn(other, day)
  }

  /** A draft is approved unless it is a hard rule and another one is in its way; nothing else changes. */
  lemma ApproveSays(rules: seq<Rule>, id: RuleId)
    requires Unambiguous(rules)
    ensures var (after, outcome) := ApproveRule(rules, id);
            && outcome == (if id >= |rules| then NotFound
                           else if rules[id].status == Draft
                               && (rules[id].kind == Reference || forall other <- rules :: !InTheWay(rules[id], other))
                           then Accepted else Conflict)
            && after == if outcome.Accepted? then rules[id := rules[id].(status := Approved)] else rules
  {
    if id < |rules| {
      var rule := rules[id];
      forall i | 0 <= i < |rules|
        ensures InTheWay(rule, rules[i]) <==> ApprovedHard(rules[i]) && Clash(rule, rules[i])
      {
        var other := rules[i];
        OverlapIsExact(rule.effectiveFrom, rule.effectiveUntil, other.effectiveFrom, other.effectiveUntil);
        forall day: Date
          ensures InForceOn(rule, day) <==> Covers(rule.effectiveFrom, rule.effectiveUntil, day)
          ensures InForceOn(other, day) <==> Covers(other.effectiveFrom, other.effectiveUntil, day)
        {
        }
      }
      assert forall i | 0 <= i < |rules| :: rules[i] in rules;
    }
  }

  /** Positive thresholds and multipliers, no negative days, and an interval that holds a day. */
  predicate IsValid(formula: Calc, from: Date, until: Option<Date>) {
    && (formula.AnnualRateLimit? ==> formula.thresholdPct > 0.0)
    && (formula.LprMultipleLimit? ==> formula.multiplier > 0.0)
    && (formula.EffectiveCostLimit? ==> formula.thresholdPct > 0.0 && formula.overdueDays >= 0)
    && (until.Some? ==> from <= until.value)
  }

  predicate OfOneType(a: Calc, b: Calc) {
    (a.AnnualRateLimit? <==> b.AnnualRateLimit?) && (a.LprMultipleLimit? <==> b.LprMultipleLimit?)
  }

  lemma EditsSay(rules: seq<Rule>, r: Rule, id: RuleId)
    ensures var (after, outcome) := CreateRule(rules, r);
            && outcome == (if !IsValid(r.formula, r.effectiveFrom, r.effectiveUntil) then Unprocessable
                           else if exists other <- rules :: other.code == r.code then Conflict else Accepted)
            && after == rules + if outcome.Accepted? then [r.(version := 1, status := Draft)] else []
    ensures var (after, outcome) := UpdateRule(rules, id, r);
            && outcome == (if id >= |rules| then NotFound
                           else if rules[id].status != Draft then Conflict
                           else if OfOneType(rules[id].formula, r.formula)
                               && IsValid(r.formula, r.effectiveFrom, r.effectiveUntil) then Accepted
                           else Unprocessable)
            && after == if !outcome.Accepted? then rules
                        else rules[id := r.(code := rules[id].code, version := rules[id].version,
                                            kind := rules[id].kind, status := Draft, scope := rules[id].scope,
                                            demoOnly := rules[id].demoOnly)]
    ensures var (after, outcome) := RetireRule(rules, id);
            && outcome == (if id >= |rules| then NotFound
                           else if rules[id].status == Approved then Accepted else Conflict)
            && after == if outcome.Accepted? then rules[id := rules[id].(status := Retired)] else rules
  {
    if other :| other in rules && other.code == r.code {
      var i :| 0 <= i < |rules| && rules[i] == other;
    }
    if i :| 0 <= i < |rules| && rules[i].code == r.code {
      assert rules[i] in rules;
    }
  }

  lemma {:induction false} LatestIsHighest(rules: seq<Rule>, code: string)
    ensures forall rule <- rules | rule.code == code :: rule.version <= LatestVersion(rules, code)
    ensures LatestVersion(rules, code) == 0
            || exists rule <- rules :: rule.code == code && rule.version == LatestVersion(rules, code)
  {
    if rules != [] {
      LatestIsHighest(rules[..|rules| - 1], code);
      assert rules == rules[..|rules| - 1] + [rules[|rules| - 1]];
    }
  }

  /** A copy is a draft with the content of the rule and the version after the highest of its code. */
  lemma CopySays(rules: seq<Rule>, id: RuleId)
    ensures var (after, outcome) := CopyRule(rules, id);
            && outcome == (if id < |rules| then Accepted else NotFound)
            && (outcome.NotFound? ==> after == rules)
            && (outcome.Accepted? ==>
                  && |after| == |rules| + 1 && after[..|rules|] == rules
                  && after[|rules|] == rules[id].(version := after[|rules|].version, status := Draft)
                  && (forall rule <- rules | rule.code == rules[id].code :: rule.version < after[|rules|].version)
                  && exists rule <- rules :: rule.code == rules[id].code && rule.version + 1 == after[|rules|].version)
  {
    if id < |rules| {
      LatestIsHighest(rules, rules[id].code);
      assert rules[id] in rules;
      assert LatestVersion(rules, rules[id].code) == 0 ==> rules[id].version == 0;
    }
  }

  /** Code and version together name one rule. */
  ghost predicate DistinctVersions(rules: seq<Rule>) {
    forall i, j | 0 <= i < j < |rules| :: rules[i].code != rules[j].code || rules[i].version != rules[j].version
  }

  lemma SameVersionsStayDistinct(rules: seq<Rule>, after: seq<Rule>)
    requires DistinctVersions(rules) && |after| == |rules|
    requires forall i | 0 <= i < |rules| :: after[i].code == rules[i].code && after[i].version == rules[i].version
    ensures DistinctVersions(after)
  {
  }

  lemma NewVersionsStayDistinct(rules: seq<Rule>, rule: Rule)
    requires DistinctVersions(rules)
    requires forall other <- rules | other.code == rule.code :: other.version < rule.version
    ensures DistinctVersions(rules + [rule])
  {
    assert forall i | 0 <= i < |rules| :: rules[i] in rules;
  }

  lemma ServeKeepsVersions(rules: seq<Rule>, request: RuleRequest)
    requires DistinctVersions(rules)
    ensures DistinctVersions(ServeRule(rules, request))
  {
    var after := ServeRule(rules, request);
    match request
    case Create(rule) =>
      EditsSay(rules, rule, 0);
      if after != rules { NewVersionsStayDistinct(rules, after[|rules|]); }
    case Copy(id) =>
      CopySays(rules, id);
      if id < |rules| { NewVersionsStayDistinct(rules, after[|rules|]); }
    case _ => SameVersionsStayDistinct(rules, after);
  }

  lemma {:induction false} VersionsStayDistinct(rules: seq<Rule>, requests: seq<RuleRequest>)
    requires DistinctVersions(rules)
    ensures DistinctVersions(ServeRules(rules, requests))
    decreases |requests|
  {
    if requests != [] {
      ServeKeepsVersions(rules, requests[0]);
      VersionsStayDistinct(ServeRule(rules, requests[0]), requests[1..]);
    }
  }

  // ---------------------------------------------------------------------------
  // Selecting the primary rule
  // ---------------------------------------------------------------------------

  datatype Reason = Unique | NoRuleContext | NoMatch | MultipleMatch

  datatype Selection = Selection(rule: Option<RuleId>, reason: Reason, candidates: seq<RuleId>)

  predicate RuleInEffect(rule: Rule, asOf: Date) {
    rule.status.Approved? && Covers(rule.effectiveFrom, rule.effectiveUntil, asOf)
  }

  predicate Matches(rule: Rule, scope: Scope, asOf: Date) {
    rule.kind.Hard? && rule.scope == scope && RuleInEffect(rule, asOf)
  }

  function MatchingRules(rules: seq<Rule>, scope: Scope, asOf: Date): (ids: seq<RuleId>)
    ensures forall k | 0 <= k < |ids| :: ids[k] < |rules| && Matches(rules[ids[k]], scope, asOf)
    ensures forall k, l | 0 <= k < l < |ids| :: ids[k] < ids[l]
    ensures forall i | 0 <= i < |rules| && Matches(rules[i], scope, asOf) :: i in ids
  {
    if rules == [] then []
    else
      var last := |rules| - 1;
      MatchingRules(rules[..last], scope, asOf) + if Matches(rules[last], scope, asOf) then [last] else []
  }

  /** The context is None until confirmed; a context of blanks only is stored as the empty string. */
  function SelectPrimaryRule(
    rules: seq<Rule>, qualification: string, context: Option<string>, product: string, asOf: Date): Selection
  {
    if context.None? || context.value == "" then Selection(None, NoRuleContext, [])
    else
      var ids := MatchingRules(rules, Scope(qualification, context.value, product), asOf);
      if |ids| == 1 then Selection(Some(ids[0]), Unique, ids)
      else if ids == [] then Selection(None, NoMatch, [])
      else Selection(None, MultipleMatch, ids)
  }

  /** On any table: the candidates are exactly the matches, and rule and reason follow from how many there are. */
  lemma SelectionReasons(
    rules: seq<Rule>, qualification: string, context: Option<string>, product: string, asOf: Date)
    ensures var s := SelectPrimaryRule(rules, qualification, context, product, asOf);
            if context.None? || context.value == "" then s == Selection(None, NoRuleContext, [])
            else
              var scope := Scope(qualification, context.value, product);
              && (forall id: RuleId :: id in s.candidates <==> id < |rules| && Matches(rules[id], scope, asOf))
              && (forall k, l | 0 <= k < l < |s.candidates| :: s.candidates[k] < s.candidates[l])
              && s.reason == (if |s.candidates| == 0 then NoMatch
                              else if |s.candidates| == 1 then Unique else MultipleMatch)
              && s.rule == if |s.candidates| == 1 then Some(s.candidates[0]) else None
  {
  }

  lemma FirstTwoMatches(rules: seq<Rule>, scope: Scope, asOf: Date)
    ensures var ids := MatchingRules(rules, scope, asOf); |ids| > 1 ==> ids[0] < ids[1] < |rules|
  {
  }

  lemma AtMostOneMatch(rules: seq<Rule>, scope: Scope, asOf: Date)
    requires Unambiguous(rules)
    ensures |MatchingRules(rules, scope, asOf)| <= 1
    ensures forall i, j | 0 <= i < j < |rules| :: !Matches(rules[i], scope, asOf) || !Matches(rules[j], scope, asOf)
  {
    FirstTwoMatches(rules, scope, asOf);
    forall a: Rule, b: Rule | Matches(a, scope, asOf) && Matches(b, scope, asOf) ensures Clash(a, b) {
    }
  }

  /** On an unambiguous table the selection is exact: the one rule in effect for the scope, or none. */
  lemma SelectionIsExact(
    rules: seq<Rule>, qualification: string, context: Option<string>, product: string, asOf: Date)
    requires Unambiguous(rules)
    ensures var s := SelectPrimaryRule(rules, qualification, context, product, asOf);
            && !s.reason.MultipleMatch?
            && (s.rule.None? <==>
                  (context.None? || context.value == ""
                   || forall i | 0 <= i < |rules| ::
                        !Matches(rules[i], Scope(qualification, context.value, product), asOf)))
            && (s.rule.Some? ==> forall i | 0 <= i < |rules| ::
                  Matches(rules[i], Scope(qualification, context.value, product), asOf) <==> i == s.rule.value)
  {
    if context.Some? && context.value != "" {
      AtMostOneMatch(rules, Scope(qualification, context.value, product), asOf);
    }
  }

  /** Two clashing approved hard rules are exactly what makes some date ambiguous. */
  lemma ClashMeansAmbiguousDate(rules: seq<Rule>, i: RuleId, j: RuleId)
    requires i < j < |rules| && ApprovedHard(rules[i]) && ApprovedHard(rules[j]) && Clash(rules[i], rules[j])
    requires ValidRuleInput(rules[i].formula, rules[i].effectiveFrom, rules[i].effectiveUntil)
    requires ValidRuleInput(rules[j].formula, rules[j].effectiveFrom, rules[j].effectiveUntil)
    requires rules[i].scope.context != ""
    ensures exists asOf: Date :: SelectPrimaryRule(rules, rules[i].scope.qualification,
              Some(rules[i].scope.context), rules[i].scope.product, asOf).reason.MultipleMatch?
  {
    var a, b := rules[i], rules[j];
    OverlapIsExact(a.effectiveFrom, a.effectiveUntil, b.effectiveFrom, b.effectiveUntil);
    var day: Date :| Covers(a.effectiveFrom, a.effectiveUntil, day) && Covers(b.effectiveFrom, b.effectiveUntil, day);
    var ids := MatchingRules(rules, a.scope, day);
    assert i in ids && j in ids;
    assert SelectPrimaryRule(rules, a.scope.qualification, Some(a.scope.context), a.scope.product,
        day).reason.MultipleMatch?;
  }
}
