/** Compare-and-set on the version of an application: what each such request does, and who wins. */
module Versions {
  import opened JobQueue
  import opened QueueRuns
  import opened Requests
  import opened Wrappers

  /** What one request makes of the row of its application; nothing else changes. */
  predicate OnlyRow(q: Queue, after: Queue, app: AppId, life: Life) {
    after == q.(apps := q.apps[app := life])
  }

  lemma CompleteSays(q: Queue, app: AppId, version: nat, now: Time)
    ensures var (after, outcome) := Complete(q, app, version, now);
            && (outcome.NotFound? <==> app !in q.apps)
            && (outcome.Accepted? <==>
                  && app in q.apps && q.apps[app].version == version && q.apps[app].state == AwaitingReview
                  && forall j <- q.jobs | Joined(q, j) && AppOf(q, j) == app :: q.jobs[j].status !in {Waiting, Running})
            && (outcome.Accepted? ==>
                  OnlyRow(q, after, app, Life(ReviewComplete, Some(now), q.apps[app].archivedAt, version + 1)))
            && (!outcome.Accepted? ==> after == q && (outcome.NotFound? || outcome.Conflict?))
            && Apply(q, CompleteApplication(app, version, now)) == after
  {
    if app in q.apps { NoActiveJobs(q, app); }
  }

  lemma NoActiveJobs(q: Queue, app: AppId)
    requires app in q.apps
    ensures !HasActiveJobs(q, app) <==>
              forall j <- q.jobs | Joined(q, j) && AppOf(q, j) == app :: q.jobs[j].status !in {Waiting, Running}
  {
    forall j <- q.jobs | Joined(q, j) && AppOf(q, j) == app
      ensures IsActiveJobOf(q, app, j) <==> q.jobs[j].status in {Waiting, Running}
    {
    }
  }

  lemma ReopenSays(q: Queue, app: AppId, version: nat)
    ensures var (after, outcome) := Reopen(q, app, version);
            && (outcome.NotFound? <==> app !in q.apps)
            && (outcome.Accepted? <==>
                  app in q.apps && q.apps[app].version == version && q.apps[app].state in {ReviewComplete, Archived})
            && (outcome.Accepted? ==> OnlyRow(q, after, app, Life(AwaitingReview, None, None, version + 1)))
            && (!outcome.Accepted? ==> after == q && (outcome.NotFound? || outcome.Conflict?))
            && Apply(q, ReopenApplication(app, version)) == after
  {
  }

  lemma ArchiveSays(q: Queue, app: AppId, version: nat, now: Time)
    ensures var (after, outcome) := Archive(q, app, version, now);
            && (outcome.NotFound? <==> app !in q.apps)
            && (outcome.Accepted? <==>
                  && app in q.apps && q.apps[app].version == version
                  && q.apps[app].state in {Lifecycle.Draft, AwaitingReview, ReviewComplete}
                  && forall j <- q.jobs | Joined(q, j) && AppOf(q, j) == app :: q.jobs[j].status !in {Waiting, Running})
            && (outcome.Accepted? ==>
                  OnlyRow(q, after, app, Life(Archived, q.apps[app].completedAt, Some(now), version + 1)))
            && (!outcome.Accepted? ==> after == q && (outcome.NotFound? || outcome.Conflict?))
            && Apply(q, ArchiveApplication(app, version, now)) == after
  {
    if app in q.apps { NoActiveJobs(q, app); }
  }

  /** A new application is a draft of version 1; a touched one only gets the next version. */
  lemma CreateAndTouchSay(q: Queue, app: AppId, version: nat)
    ensures app !in q.apps ==> OnlyRow(q, CreateApp(q, app), app, Life(Lifecycle.Draft, None, None, 1))
    ensures app in q.apps ==> CreateApp(q, app) == q
    ensures var (after, outcome) := BumpVersion(q, app, version);
            && (outcome.NotFound? <==> app !in q.apps)
            && (outcome.Accepted? <==> app in q.apps && q.apps[app].version == version)
            && (outcome.Accepted? ==> OnlyRow(q, after, app, q.apps[app].(version := version + 1)))
            && (!outcome.Accepted? ==> after == q && (outcome.NotFound? || outcome.Conflict?))
            && Apply(q, TouchApplication(app, version)) == after
            && Apply(q, CreateApplication(app)) == CreateApp(q, app)
  {
  }

  /** Deletion takes exactly the rows of its application: every other row stays as it is. */
  lemma DeleteSays(q: Queue, app: AppId)
    requires Consistent(q)
    ensures var after := DeleteApp(q, app);
            && (forall a :: a in after.apps <==> a in q.apps && a != app)
            && (forall a <- after.apps :: after.apps[a] == q.apps[a])
            && (forall d :: d in after.docs <==> d in q.docs && q.docs[d].app != app)
            && (forall d <- after.docs :: after.docs[d] == q.docs[d])
            && (forall j :: j in after.jobs <==> j in q.jobs && AppOf(q, j) != app)
            && (forall j <- after.jobs :: after.jobs[j] == q.jobs[j])
            && Apply(q, DeleteApplication(app)) == after
  {
    assert forall j <- q.jobs :: JobShown(q, j);
  }

  // ---------------------------------------------------------------------------
  // One winner for each version
  // ---------------------------------------------------------------------------

  /** A request that asks for a version of an application. */
  predicate AsksFor(s: QueueStep, app: AppId, version: nat) {
    (s.CompleteApplication? || s.ReopenApplication? || s.ArchiveApplication? || s.TouchApplication?)
    && s.app == app && s.version == version
  }

  ghost function ApplyAll(q: Queue, steps: seq<QueueStep>): Queue
    decreases |steps|
  {
    if steps == [] then q else ApplyAll(Apply(q, steps[0]), steps[1..])
  }

  ghost predicate NotDeleted(steps: seq<QueueStep>, app: AppId) {
    forall i | 0 <= i < |steps| :: !(steps[i].DeleteApplication? && steps[i].app == app)
  }

  lemma JobStepsKeepVersions(q: Queue, s: QueueStep, app: AppId)
    requires app in q.apps && (JobStep(s) || s.Upload?)
    ensures app in Apply(q, s).apps && Apply(q, s).apps[app].version == q.apps[app].version
  {
  }

  lemma StepKeepsVersion(q: Queue, s: QueueStep, app: AppId)
    requires app in q.apps && !(s.DeleteApplication? && s.app == app)
    ensures app in Apply(q, s).apps
    ensures var before, after := q.apps[app].version, Apply(q, s).apps[app].version;
            after == if Apply(q, s) != q && AsksFor(s, app, before) then before + 1 else before
  {
    if JobStep(s) || s.Upload? {
      JobStepsKeepVersions(q, s, app);
    }
  }

  lemma {:induction false} VersionsOnlyRise(q: Queue, steps: seq<QueueStep>, app: AppId)
    requires app in q.apps && NotDeleted(steps, app)
    ensures app in ApplyAll(q, steps).apps && q.apps[app].version <= ApplyAll(q, steps).apps[app].version
    decreases |steps|
  {
    if steps != [] {
      StepKeepsVersion(q, steps[0], app);
      assert NotDeleted(steps[1..], app);
      VersionsOnlyRise(Apply(q, steps[0]), steps[1..], app);
    }
  }

  /**
   * Of the requests that ask for one version of an application, only the first to take effect does: whatever
   * happens after it, short of deletion, each later one is refused.
   */
  lemma OneWinnerPerVersion(q: Queue, first: QueueStep, steps: seq<QueueStep>, late: QueueStep, app: AppId,
                            version: nat)
    requires AsksFor(first, app, version) && Apply(q, first) != q && app in q.apps
    requires NotDeleted(steps, app) && AsksFor(late, app, version)
    ensures var w := ApplyAll(Apply(q, first), steps); Apply(w, late) == w
  {
    StepKeepsVersion(q, first, app);
    VersionsOnlyRise(Apply(q, first), steps, app);
  }
}
