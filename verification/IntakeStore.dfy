/** The upload endpoint and the hard deletion as the program runs them. */
module IntakeStore {
  import opened Intake
  import opened JobQueue
  import opened Requests
  import opened Wrappers

  /** The keys whose deletion fails, in the order they were tried. */
  function Failures(keys: seq<string>, failing: set<string>): seq<string> {
    if keys == [] then []
    else
      var last := keys[|keys| - 1];
      Failures(keys[..|keys| - 1], failing) + if last in failing then [last] else []
  }

  lemma {:induction false} FailuresAreFailing(keys: seq<string>, failing: set<string>)
    ensures Elements(Failures(keys, failing)) == Elements(keys) * failing
  {
    if keys != [] {
      var front, last := keys[..|keys| - 1], keys[|keys| - 1];
      assert keys == front + [last];
      ElementsAppend(front, last);
      FailuresAreFailing(front, failing);
      ElementsAppend(Failures(front, failing), last);
      assert Failures(front, failing) + [] == Failures(front, failing);
    }
  }

  /** The rest of a purge, step by step: one deletion for each key, and the end. */
  function PurgeSteps(app: AppId, keys: seq<string>, failing: set<string>): seq<IntakeStep> {
    if keys == [] then [PurgeEnd(app)] else [PurgeNext(app, keys[0] !in failing)] + PurgeSteps(app, keys[1..], failing)
  }

  /** A purge in progress: what it could not delete so far is noted. */
  ghost predicate Purging(t: Holdings, app: AppId, keys: seq<string>, failing: set<string>) {
    && app in t.purges && app in t.tombstones && t.tombstones[app] == t.purges[app].keys
    && t.purges[app].next <= |t.purges[app].keys| && keys == t.purges[app].keys[t.purges[app].next..]
    && t.purges[app].remaining == Failures(t.purges[app].keys[..t.purges[app].next], failing)
  }

  lemma PurgeGoesOn(t: Holdings, lim: Limits, app: AppId, keys: seq<string>, failing: set<string>, next: Holdings)
    requires Purging(t, app, keys, failing) && keys != []
    requires next == Next(t, lim, PurgeNext(app, keys[0] !in failing))
    ensures Purging(next, app, keys[1..], failing) && next.purges[app].keys == t.purges[app].keys
    ensures next == t.(objects := t.objects - ({keys[0]} - failing), purges := next.purges)
    ensures next.purges - {app} == t.purges - {app}
  {
    var p := t.purges[app];
    assert p.keys[..p.next + 1][..p.next] == p.keys[..p.next] && p.keys[..p.next + 1][p.next] == keys[0];
    assert keys[1..] == p.keys[p.next + 1..];
  }

  lemma {:induction false} PurgeGetsDone(t: Holdings, lim: Limits, app: AppId, keys: seq<string>, failing: set<string>)
    requires Purging(t, app, keys, failing)
    ensures EnabledRun(t, lim, PurgeSteps(app, keys, failing))
    ensures After(t, lim, PurgeSteps(app, keys, failing)) ==
              t.(objects := t.objects - (Elements(keys) - failing), purges := t.purges - {app},
                 tombstones := t.tombstones[app := Failures(t.purges[app].keys, failing)])
    decreases |keys|
  {
    var p, steps := t.purges[app], PurgeSteps(app, keys, failing);
    var next := Next(t, lim, steps[0]);
    if keys == [] {
      assert p.keys[..p.next] == p.keys;
      assert steps[1..] == [] && After(next, lim, steps[1..]) == next;
      assert t.tombstones[app := p.keys] == t.tombstones;
    } else {
      PurgeGoesOn(t, lim, app, keys, failing, next);
      PurgeGetsDone(next, lim, app, keys[1..], failing);
      assert steps[1..] == PurgeSteps(app, keys[1..], failing);
      FirstElement(keys);
      assert next.objects - (Elements(keys[1..]) - failing) == t.objects - (Elements(keys) - failing);
    }
  }

  lemma FirstElement(keys: seq<string>)
    requires keys != []
    ensures Elements(keys) == {keys[0]} + Elements(keys[1..])
  {
    forall key <- Elements(keys) ensures key in {keys[0]} + Elements(keys[1..]) {
      var i :| 0 <= i < |keys| && keys[i] == key;
      if i > 0 { assert keys[1..][i - 1] == key; }
    }
    forall key <- Elements(keys[1..]) ensures key in Elements(keys) {
      var i :| 0 <= i < |keys| - 1 && keys[1..][i] == key;
      assert keys[i + 1] == key;
    }
  }

  /**
   * A deletion that is not interrupted takes the rows and every object but the failing ones, and its tombstone
   * ends up listing exactly those: the steps add up to what the endpoint does.
   */
  lemma DeletionGetsDone(t: Holdings, lim: Limits, app: AppId, keys: seq<string>, failing: set<string>)
    requires Enabled(t, HardDelete(app, keys))
    ensures var steps := [HardDelete(app, keys)] + PurgeSteps(app, keys, failing);
            && EnabledRun(t, lim, steps)
            && After(t, lim, steps) ==
                 t.(q := DeleteApp(t.q, app), objects := t.objects - (Elements(keys) - failing),
                    tombstones := t.tombstones[app := Failures(keys, failing)], purges := t.purges - {app})
  {
    var steps, next := [HardDelete(app, keys)] + PurgeSteps(app, keys, failing), Next(t, lim, HardDelete(app, keys));
    assert keys[0..] == keys;
    PurgeGetsDone(next, lim, app, keys, failing);
    assert steps[1..] == PurgeSteps(app, keys, failing);
    assert next.purges - {app} == t.purges - {app};
    assert next.tombstones[app := Failures(keys, failing)] == t.tombstones[app := Failures(keys, failing)];
  }

  datatype DeletionRequest = DeletionRequest(tokenHash: string, expiresAt: Time, actor: string)

  /** The newest request must have this token, still be valid, and be of the same administrator. */
  function Confirmation(latest: Option<DeletionRequest>, tokenHash: string, admin: string, now: Time)
    : (outcome: Outcome)
    ensures outcome.Accepted? <==> latest.Some? && latest.value.tokenHash == tokenHash
                                   && now < latest.value.expiresAt && latest.value.actor == admin
    ensures outcome.Forbidden? <==>
              && latest.Some?
              && (latest.value.tokenHash != tokenHash || (now < latest.value.expiresAt && latest.value.actor != admin))
    ensures outcome in {Accepted, Forbidden, Conflict}
  {
    if latest.None? then Conflict
    else if latest.value.tokenHash != tokenHash then Forbidden
    else if latest.value.expiresAt <= now then Conflict
    else if latest.value.actor != admin then Forbidden
    else Accepted
  }

  class Store {
    var q: Queue
    var idem: map<IdemKey<AppId>, IdemRecord<DocId>>
    var objects: set<string>
    var uploading: set<string>
    var tombstones: map<AppId, seq<string>>
    var purges: map<AppId, Purge>

    function Contents(): Holdings
      reads this
    {
      Holdings(q, idem, objects, uploading, tombstones, purges)
    }

    constructor ()
      ensures Contents() == NOTHING
    {
      q, idem := Queue(map[], map[], map[]), map[];
      objects, uploading, tombstones, purges := {}, {}, map[], map[];
    }

    method FindDuplicate(app: AppId, sha256: string) returns (d: Option<DocId>)
      requires DistinctDigests(q.docs)
      ensures d == Duplicate(q.docs, app, sha256)
    {
      var rest := q.docs.Keys;
      while rest != {}
        invariant rest <= q.docs.Keys
        invariant forall k <- q.docs | k !in rest :: !IsDuplicate(q.docs, app, sha256, k)
        decreases rest
      {
        var k :| k in rest;
        if q.docs[k].app == app && q.docs[k].sha256 == sha256 {
          assert IsDuplicate(q.docs, app, sha256, k);
          return Some(k);
        }
        rest := rest - {k};
      }
      return None;
    }

    /** How many materials the application has, and their bytes. */
    method Usage(app: AppId) returns (count: nat, total: nat)
      ensures count == |MaterialsOf(q.docs, app)|
      ensures total == TotalSize(q.docs, MaterialsOf(q.docs, app))
    {
      count, total := 0, 0;
      var rest := set d <- q.docs | q.docs[d].app == app;
      while rest != {}
        invariant rest <= q.docs.Keys
        invariant count + |rest| == |MaterialsOf(q.docs, app)|
        invariant total + TotalSize(q.docs, rest) == TotalSize(q.docs, MaterialsOf(q.docs, app))
        decreases rest
      {
        var d :| d in rest;
        SizeOfOne(q.docs, rest, d);
        count, total, rest := count + 1, total + q.docs[d].size, rest - {d};
      }
    }

    /** The upload ends; the store may fail to delete its object. */
    method DropObject(objectKey: string, deleted: bool)
      modifies this`objects, this`uploading
      ensures Contents() == Dropped(old(Contents()), objectKey, deleted)
    {
      if deleted {
        objects := objects - {objectKey};
      }
      uploading := uploading - {objectKey};
    }

    method Refuse(objectKey: string, deleted: bool, answer: UploadOutcome) returns (outcome: UploadOutcome)
      modifies this`objects, this`uploading
      ensures Contents() == Dropped(old(Contents()), objectKey, deleted) && outcome == Unless(deleted, answer)
    {
      DropObject(objectKey, deleted);
      outcome := Unless(deleted, answer);
    }

    /** The part of an upload that follows the reading of its stream. */
    method SettleUpload(lim: Limits, u: Upload, objectKey: string, del: Deletion) returns (outcome: UploadOutcome)
      requires DistinctDigests(q.docs)
      modifies this
      ensures (Contents(), outcome) == Settle(old(Contents()), lim, u, objectKey, del)
    {
      if Exceeds(u, lim) && !del.first {
        outcome := Refuse(objectKey, false, Refused(ServerError));
        return;
      }
      if u.app !in q.apps {
        outcome := Refuse(objectKey, del.first, Refused(NotFound));
        return;
      }
      if !Mutable(q.apps[u.app].state) {
        outcome := Refuse(objectKey, del.first, Refused(Conflict));
        return;
      }
      match ReplayOf(idem, KeyOf(u), u.requestHash) {
        case Mismatch =>
          outcome := Refuse(objectKey, del.first, Refused(Conflict));
          return;
        case SameRequest(d) =>
          if d !in q.docs {
            outcome := Refuse(objectKey, del.first, Refused(ServerError));
            return;
          }
          if !del.first {
            DropObject(objectKey, del.second);
            return Refused(ServerError);
          }
          DropObject(objectKey, true);
          return Existing(d);
        case NewRequest =>
      }
      outcome := AdmitOrRefuse(lim, u, objectKey, del);
    }

    method AdmitOrRefuse(lim: Limits, u: Upload, objectKey: string, del: Deletion) returns (outcome: UploadOutcome)
      requires DistinctDigests(q.docs) && (Exceeds(u, lim) ==> del.first)
      requires u.app in q.apps && Mutable(q.apps[u.app].state) && KeyOf(u) !in idem
      modifies this
      ensures (Contents(), outcome) == Settle(old(Contents()), lim, u, objectKey, del)
    {
      var duplicate := FindDuplicate(u.app, u.sha256);
      if duplicate.Some? {
        if !del.first {
          DropObject(objectKey, del.second);
          return Refused(ServerError);
        }
        DropObject(objectKey, true);
        idem := idem[KeyOf(u) := IdemRecord(u.requestHash, duplicate.value)];
        return Existing(duplicate.value);
      }
      var count, total := Usage(u.app);
      if count >= lim.applicationMaterials || total + u.size > lim.applicationBytes {
        outcome := Refuse(objectKey, del.first, TooLarge);
        return;
      }
      q := WithUpload(q, u, lim, objectKey);
      idem := idem[KeyOf(u) := IdemRecord(u.requestHash, u.doc)];
      if Exceeds(u, lim) {
        objects := objects - {objectKey};
      }
      uploading := uploading - {objectKey};
      return Stored(u.doc);
    }

    method ObjectKeys(app: AppId) returns (keys: seq<string>)
      ensures Elements(keys) == KeysOf(q.docs, app)
    {
      keys := [];
      var rest := q.docs.Keys;
      while rest != {}
        invariant rest <= q.docs.Keys
        invariant Elements(keys) == set d <- q.docs | d !in rest && q.docs[d].app == app :: q.docs[d].objectKey
        decreases rest
      {
        var d :| d in rest;
        if q.docs[d].app == app {
          ElementsAppend(keys, q.docs[d].objectKey);
          keys := keys + [q.docs[d].objectKey];
        }
        rest := rest - {d};
      }
    }

    /** A key that cannot be deleted is kept, and the next one is tried. */
    method PurgeObjects(objectKeys: seq<string>, failing: set<string>) returns (remaining: seq<string>)
      modifies this`objects
      ensures remaining == Failures(objectKeys, failing)
      ensures objects == old(objects) - (Elements(objectKeys) - failing)
    {
      remaining := [];
      for i := 0 to |objectKeys|
        invariant remaining == Failures(objectKeys[..i], failing)
        invariant objects == old(objects) - (Elements(objectKeys[..i]) - failing)
      {
        assert objectKeys[..i + 1] == objectKeys[..i] + [objectKeys[i]];
        assert objectKeys[..i + 1][..i] == objectKeys[..i];
        ElementsAppend(objectKeys[..i], objectKeys[i]);
        if objectKeys[i] in failing {
          remaining := remaining + [objectKeys[i]];
        } else {
          objects := objects - {objectKeys[i]};
        }
      }
      assert objectKeys[..|objectKeys|] == objectKeys;
    }

    /**
     * The rows go first, with a tombstone that lists every object; then the objects one by one. What stays
     * listed in the end is exactly what could not be deleted.
     */
    method ConfirmHardDelete(
      app: AppId, latest: Option<DeletionRequest>, tokenHash: string, admin: string, now: Time, failing: set<string>)
      returns (outcome: Outcome, ghost keys: seq<string>)
      requires app in q.apps ==> app !in tombstones
      modifies this
      ensures outcome == if app in old(q.apps) then Confirmation(latest, tokenHash, admin, now) else NotFound
      ensures !outcome.Accepted? ==> unchanged(this)
      ensures outcome.Accepted? ==>
                && Elements(keys) == old(KeysOf(q.docs, app))
                && q == DeleteApp(old(q), app)
                && objects == old(objects) - (Elements(keys) - failing)
                && tombstones == old(tombstones)[app := Failures(keys, failing)]
                && idem == old(idem) && uploading == old(uploading) && purges == old(purges)
    {
      keys := [];
      if app !in q.apps {
        outcome := NotFound;
        return;
      }
      outcome := Confirmation(latest, tokenHash, admin, now);
      if !outcome.Accepted? {
        return;
      }
      var objectKeys := ObjectKeys(app);
      keys := objectKeys;
      q := DeleteApp(q, app);
      tombstones := tombstones[app := objectKeys];
      var remaining := PurgeObjects(objectKeys, failing);
      if remaining != objectKeys {
        tombstones := tombstones[app := remaining];
      }
    }
  }
}
