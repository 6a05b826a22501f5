/** Uploads, idempotency, the object store, and the hard deletion of an application. */
module Intake {
  import opened JobQueue
  import opened QueueRuns
  import opened Requests
  import opened Wrappers

  datatype Limits = Limits(materialBytes: nat, applicationBytes: nat, applicationMaterials: nat)

  datatype Purge = Purge(keys: seq<string>, next: nat, remaining: seq<string>)

  /**
   * Uploading to one application is one operation. Object keys are drawn fresh; an upload in flight holds its
   * key until it is settled.
   */
  datatype Holdings = Holdings(
    q: Queue, idem: map<IdemKey<AppId>, IdemRecord<DocId>>,
    objects: set<string>, uploading: set<string>,
    tombstones: map<AppId, seq<string>>, purges: map<AppId, Purge>)

  // ---------------------------------------------------------------------------
  // Reading the stream
  // ---------------------------------------------------------------------------

  function Concat(chunks: seq<seq<bv8>>): seq<bv8> {
    if chunks == [] then [] else Concat(chunks[..|chunks| - 1]) + chunks[|chunks| - 1]
  }

  /**
   * The reader stops storing at the first byte over the limit, and the rest of the stream is then drained:
   * size and digest are always those of the whole material.
   */
  method ReadLimited(chunks: seq<seq<bv8>>, limit: nat) returns (size: nat, digested: seq<bv8>, exceeded: bool)
    ensures digested == Concat(chunks) && size == |digested|
    ensures exceeded <==> |Concat(chunks)| > limit
  {
    size, digested, exceeded := 0, [], false;
    var i := 0;
    while i < |chunks| && !exceeded
      invariant 0 <= i <= |chunks|
      invariant digested == Concat(chunks[..i]) && size == |digested|
      invariant exceeded <==> size > limit
    {
      assert chunks[..i + 1][..i] == chunks[..i];
      size, digested := size + |chunks[i]|, digested + chunks[i];
      exceeded := size > limit;
      i := i + 1;
    }
    while i < |chunks|
      invariant 0 <= i <= |chunks|
      invariant digested == Concat(chunks[..i]) && size == |digested|
      invariant exceeded <==> size > limit
      invariant !exceeded ==> i == |chunks|
    {
      assert chunks[..i + 1][..i] == chunks[..i];
      size, digested := size + |chunks[i]|, digested + chunks[i];
      i := i + 1;
    }
    assert chunks[..i] == chunks;
  }

  // ---------------------------------------------------------------------------
  // Settling an upload
  // ---------------------------------------------------------------------------

  datatype Upload = Upload(
    app: AppId, actor: string, key: string, requestHash: string,
    sha256: string, size: nat, format: Format, unsupported: Option<string>,
    doc: DocId, job: JobId, now: Time)

  datatype UploadOutcome = Stored(doc: DocId) | Existing(doc: DocId) | Refused(reason: Outcome) | TooLarge

  /** Whether the store deletes the object the first, and the second, time the upload asks it to. */
  datatype Deletion = Deletion(first: bool, second: bool)

  predicate IsDuplicate(docs: map<DocId, Doc>, app: AppId, sha256: string, d: DocId) {
    d in docs && docs[d].app == app && docs[d].sha256 == sha256
  }

  ghost function Duplicate(docs: map<DocId, Doc>, app: AppId, sha256: string): (d: Option<DocId>)
    ensures d.Some? ==> IsDuplicate(docs, app, sha256, d.value)
    ensures d.None? ==> forall k <- docs :: !IsDuplicate(docs, app, sha256, k)
  {
    if exists k <- docs :: IsDuplicate(docs, app, sha256, k) then
      var k :| k in docs && IsDuplicate(docs, app, sha256, k);
      Some(k)
    else None
  }

  ghost function MaterialsOf(docs: map<DocId, Doc>, app: AppId): set<DocId> {
    set d <- docs | docs[d].app == app
  }

  ghost function TotalSize(docs: map<DocId, Doc>, ids: set<DocId>): nat
    requires ids <= docs.Keys
  {
    if ids == {} then 0
    else
      var d :| d in ids;
      docs[d].size + TotalSize(docs, ids - {d})
  }

  lemma {:induction false} SizeOfOne(docs: map<DocId, Doc>, ids: set<DocId>, d: DocId)
    requires ids <= docs.Keys && d in ids
    ensures TotalSize(docs, ids) == docs[d].size + TotalSize(docs, ids - {d})
    decreases ids
  {
    var first :| first in ids && TotalSize(docs, ids) == docs[first].size + TotalSize(docs, ids - {first});
    if first != d {
      SizeOfOne(docs, ids - {first}, d);
      SizeOfOne(docs, ids - {d}, first);
      assert ids - {first} - {d} == ids - {d} - {first};
    }
  }

  lemma {:induction false} SameSizes(before: map<DocId, Doc>, after: map<DocId, Doc>, ids: set<DocId>)
    requires ids <= before.Keys && ids <= after.Keys && forall d <- ids :: before[d].size == after[d].size
    ensures TotalSize(before, ids) == TotalSize(after, ids)
  {
    if ids != {} {
      var d :| d in ids;
      SizeOfOne(before, ids, d);
      SizeOfOne(after, ids, d);
      SameSizes(before, after, ids - {d});
    }
  }

  ghost predicate Fits(docs: map<DocId, Doc>, app: AppId, lim: Limits, incoming: nat) {
    && |MaterialsOf(docs, app)| < lim.applicationMaterials
    && TotalSize(docs, MaterialsOf(docs, app)) + incoming <= lim.applicationBytes
  }

  predicate Exceeds(u: Upload, lim: Limits) { u.size > lim.materialBytes }

  function StatusAtUpload(u: Upload, lim: Limits): JobStatus {
    if Exceeds(u, lim) then Failed else if u.unsupported.Some? then ManualHandling else Waiting
  }

  function ErrorAtUpload(u: Upload, lim: Limits): Option<string> {
    if Exceeds(u, lim) then Some("material_size_limit_exceeded") else u.unsupported
  }

  function NewDoc(u: Upload, lim: Limits, objectKey: string): Doc {
    var status := StatusAtUpload(u, lim);
    Doc(u.app, u.sha256, u.size, objectKey, u.format, status, ReviewAtUpload(status))
  }

  function WithUpload(q: Queue, u: Upload, lim: Limits, objectKey: string): Queue {
    AddDocument(q, u.doc, NewDoc(u, lim, objectKey), u.job, ErrorAtUpload(u, lim), u.now)
  }

  function KeyOf(u: Upload): IdemKey<AppId> { IdemKey(u.actor, u.app, u.key) }

  /** The upload is over without a document; its object goes unless the store fails to delete it. */
  function Dropped(t: Holdings, objectKey: string, deleted: bool): Holdings {
    t.(objects := if deleted then t.objects - {objectKey} else t.objects, uploading := t.uploading - {objectKey})
  }

  /** A failing deletion takes the place of the answer. */
  function Unless(deleted: bool, answer: UploadOutcome): UploadOutcome {
    if deleted then answer else Refused(ServerError)
  }

  /** The document, its job and its idempotency record; the object of an oversized material is not kept. */
  function Admitted(t: Holdings, u: Upload, lim: Limits, objectKey: string): Holdings {
    t.(q := WithUpload(t.q, u, lim, objectKey),
       idem := t.idem[KeyOf(u) := IdemRecord(u.requestHash, u.doc)],
       objects := if Exceeds(u, lim) then t.objects - {objectKey} else t.objects,
       uploading := t.uploading - {objectKey})
  }

  /**
   * What happens once the stream has been read. An oversized object is deleted first, and a failure ends the
   * request. An upload that turns out to be there already deletes its object before it commits, and once more
   * when that fails; one that is refused deletes it on the way out.
   */
  ghost function Settle(t: Holdings, lim: Limits, u: Upload, objectKey: string, del: Deletion)
    : (Holdings, UploadOutcome)
  {
    var refused, docs := Dropped(t, objectKey, del.first), t.q.docs;
    if Exceeds(u, lim) && !del.first then (refused, Refused(ServerError))
    else if u.app !in t.q.apps then (refused, Unless(del.first, Refused(NotFound)))
    else if !Mutable(t.q.apps[u.app].state) then (refused, Unless(del.first, Refused(Conflict)))
    else
      match ReplayOf(t.idem, KeyOf(u), u.requestHash)
      case Mismatch => (refused, Unless(del.first, Refused(Conflict)))
      case SameRequest(d) =>
        if d !in docs then (refused, Refused(ServerError))
        else if del.first then (refused, Existing(d))
        else (Dropped(t, objectKey, del.second), Refused(ServerError))
      case NewRequest =>
        if Duplicate(docs, u.app, u.sha256).Some? then
          var d := Duplicate(docs, u.app, u.sha256).value;
          if del.first then (refused.(idem := t.idem[KeyOf(u) := IdemRecord(u.requestHash, d)]), Existing(d))
          else (Dropped(t, objectKey, del.second), Refused(ServerError))
        else if !Fits(docs, u.app, lim, u.size) then (refused, Unless(del.first, TooLarge))
        else (Admitted(t, u, lim, objectKey), Stored(u.doc))
  }

  /** The upload gets to the point of storing a new document. */
  ghost predicate Admits(t: Holdings, lim: Limits, u: Upload) {
    && u.app in t.q.apps && Mutable(t.q.apps[u.app].state) && KeyOf(u) !in t.idem
    && Duplicate(t.q.docs, u.app, u.sha256).None? && Fits(t.q.docs, u.app, lim, u.size)
  }

  /** The upload turns out to be there already, by its key or by its digest. */
  ghost predicate Finds(t: Holdings, u: Upload) {
    && u.app in t.q.apps && Mutable(t.q.apps[u.app].state)
    && if KeyOf(u) in t.idem
       then t.idem[KeyOf(u)].requestHash == u.requestHash && t.idem[KeyOf(u)].resource in t.q.docs
       else Duplicate(t.q.docs, u.app, u.sha256).Some?
  }

  /** Every deletion of its object that an upload without a new document asks for fails. */
  ghost predicate CannotDelete(t: Holdings, lim: Limits, u: Upload, del: Deletion) {
    && !del.first
    && (Exceeds(u, lim) || (!Admits(t, lim, u) && (Finds(t, u) ==> !del.second)))
  }

  // ---------------------------------------------------------------------------
  // Steps
  // ---------------------------------------------------------------------------

  datatype IntakeStep =
    | QueueOnly(step: QueueStep)
    | StartUpload(objectKey: string)
    | PutObject(objectKey: string)
    | SettleUpload(upload: Upload, objectKey: string, del: Deletion)
    /** An error of the database or the store, or the end of the process, while an upload is in flight. */
    | AbandonUpload(objectKey: string, deleted: bool)
    | HardDelete(app: AppId, keys: seq<string>)
    | PurgeNext(app: AppId, deleted: bool)
    | PurgeEnd(app: AppId)
    | PurgeCrash(app: AppId)

  ghost function KeysOf(docs: map<DocId, Doc>, app: AppId): set<string> {
    set d <- docs | docs[d].app == app :: docs[d].objectKey
  }

  ghost function Elements(keys: seq<string>): set<string> {
    set i | 0 <= i < |keys| :: keys[i]
  }

  /** Keys that belong to a document or to what a deletion still has to remove. */
  ghost predicate Owned(t: Holdings, key: string) {
    || (exists d <- t.q.docs :: t.q.docs[d].objectKey == key)
    || (exists a <- t.tombstones :: key in Elements(t.tombstones[a]))
  }

  /** Fresh identifiers, and a deletion that lists the keys of all documents it removes. */
  ghost predicate Enabled(t: Holdings, s: IntakeStep) {
    match s
    case QueueOnly(step) =>
      !step.Upload? && !step.DeleteApplication? && WellFormed(step)
      && (step.CreateApplication? ==> step.app !in t.tombstones)
    case StartUpload(key) => !Owned(t, key) && key !in t.uploading && key !in t.objects
    case PutObject(key) => key in t.uploading
    case SettleUpload(u, key, _) => key in t.uploading && u.doc !in t.q.docs && u.job !in t.q.jobs
    case AbandonUpload(key, _) => key in t.uploading
    case HardDelete(app, keys) => app in t.q.apps && Elements(keys) == KeysOf(t.q.docs, app)
    case PurgeNext(app, _) => app in t.purges && t.purges[app].next < |t.purges[app].keys|
    case PurgeEnd(app) => app in t.purges && t.purges[app].next == |t.purges[app].keys|
    case PurgeCrash(app) => app in t.purges
  }

  ghost function Next(t: Holdings, lim: Limits, s: IntakeStep): Holdings
    requires Enabled(t, s)
  {
    match s
    case QueueOnly(step) => t.(q := Apply(t.q, step))
    case StartUpload(key) => t.(uploading := t.uploading + {key})
    case PutObject(key) => t.(objects := t.objects + {key})
    case SettleUpload(u, key, del) => Settle(t, lim, u, key, del).0
    case AbandonUpload(key, deleted) => Dropped(t, key, deleted)
    case HardDelete(app, keys) =>
      t.(q := DeleteApp(t.q, app),
         tombstones := t.tombstones[app := keys], purges := t.purges[app := Purge(keys, 0, [])])
    case PurgeNext(app, deleted) =>
      var p := t.purges[app];
      if deleted
      then t.(objects := t.objects - {p.keys[p.next]}, purges := t.purges[app := p.(next := p.next + 1)])
      else t.(purges := t.purges[app := p.(next := p.next + 1, remaining := p.remaining + [p.keys[p.next]])])
    case PurgeEnd(app) =>
      var p := t.purges[app];
      t.(tombstones := if p.remaining != p.keys then t.tombstones[app := p.remaining] else t.tombstones,
         purges := t.purges - {app})
    case PurgeCrash(app) => t.(purges := t.purges - {app})
  }

  // ---------------------------------------------------------------------------
  // What every step keeps
  // ---------------------------------------------------------------------------

  ghost predicate WithinLimits(docs: map<DocId, Doc>, lim: Limits) {
    forall a ::
      && |MaterialsOf(docs, a)| <= lim.applicationMaterials
      && TotalSize(docs, MaterialsOf(docs, a)) <= lim.applicationBytes
  }

  ghost predicate DistinctDigests(docs: map<DocId, Doc>) {
    forall d, e | d in docs && e in docs && docs[d].app == docs[e].app && docs[d].sha256 == docs[e].sha256 :: d == e
  }

  /** A key of an application that still exists is bound to one of its documents. */
  ghost predicate Bound(t: Holdings) {
    forall k <- t.idem | k.operation in t.q.apps ::
      t.idem[k].resource in t.q.docs && t.q.docs[t.idem[k].resource].app == k.operation
  }

  ghost predicate NoReuse(t: Holdings) {
    && (forall a <- t.q.apps :: a !in t.tombstones)
    && (forall a <- t.purges :: a in t.tombstones)
    && forall k <- t.idem :: k.operation in t.q.apps || k.operation in t.tombstones
  }

  ghost predicate UploadsKept(t: Holdings, lim: Limits) {
    WithinLimits(t.q.docs, lim) && DistinctDigests(t.q.docs) && Bound(t) && NoReuse(t)
  }

  /** The same materials: status columns apart, the document table is unchanged. */
  ghost predicate SameMaterials(before: map<DocId, Doc>, after: map<DocId, Doc>) {
    && before.Keys == after.Keys
    && forall d <- before :: after[d] == before[d].(processing := after[d].processing, review := after[d].review)
  }

  lemma MaterialsUnchanged(before: map<DocId, Doc>, after: map<DocId, Doc>, lim: Limits)
    requires SameMaterials(before, after) && WithinLimits(before, lim) && DistinctDigests(before)
    ensures WithinLimits(after, lim) && DistinctDigests(after)
  {
    forall a
      ensures MaterialsOf(after, a) == MaterialsOf(before, a)
      ensures TotalSize(after, MaterialsOf(after, a)) == TotalSize(before, MaterialsOf(before, a))
    {
      assert MaterialsOf(after, a) == MaterialsOf(before, a);
      SameSizes(before, after, MaterialsOf(before, a));
    }
  }

  lemma QueueStepKeepsMaterials(q: Queue, s: QueueStep)
    requires Consistent(q) && !s.Upload? && !s.DeleteApplication?
    ensures SameMaterials(q.docs, Apply(q, s).docs)
    ensures q.apps.Keys <= Apply(q, s).apps.Keys
    ensures forall a <- Apply(q, s).apps :: a in q.apps || (s.CreateApplication? && s.app == a)
  {
    JobsUntouched(q, s);
    if JobStep(s) && s.j in q.jobs {
      assert JobShown(q, s.j);
      DocumentsStay(q, s);
    }
  }

  lemma OneMore(docs: map<DocId, Doc>, d: DocId, doc: Doc, lim: Limits)
    requires WithinLimits(docs, lim) && DistinctDigests(docs) && d !in docs
    requires Fits(docs, doc.app, lim, doc.size) && Duplicate(docs, doc.app, doc.sha256).None?
    ensures WithinLimits(docs[d := doc], lim) && DistinctDigests(docs[d := doc])
  {
    var after := docs[d := doc];
    forall a
      ensures |MaterialsOf(after, a)| <= lim.applicationMaterials
      ensures TotalSize(after, MaterialsOf(after, a)) <= lim.applicationBytes
    {
      var ids := MaterialsOf(docs, a);
      SameSizes(docs, after, ids);
      if a == doc.app {
        assert MaterialsOf(after, a) == ids + {d};
        SizeOfOne(after, ids + {d}, d);
        assert ids + {d} - {d} == ids;
      } else {
        assert MaterialsOf(after, a) == ids;
      }
    }
    forall e | e in docs && docs[e].app == doc.app && docs[e].sha256 == doc.sha256 ensures false {
      assert IsDuplicate(docs, doc.app, doc.sha256, e);
    }
  }

  lemma Fewer(docs: map<DocId, Doc>, after: map<DocId, Doc>, app: AppId, lim: Limits)
    requires WithinLimits(docs, lim) && DistinctDigests(docs)
    requires after == map d <- docs | docs[d].app != app :: docs[d]
    ensures WithinLimits(after, lim) && DistinctDigests(after)
  {
    forall a
      ensures |MaterialsOf(after, a)| <= lim.applicationMaterials
      ensures TotalSize(after, MaterialsOf(after, a)) <= lim.applicationBytes
    {
      if a == app {
        assert MaterialsOf(after, a) == {};
        assert |MaterialsOf(docs, a)| <= lim.applicationMaterials;
      } else {
        assert MaterialsOf(after, a) == MaterialsOf(docs, a);
        SameSizes(docs, after, MaterialsOf(docs, a));
      }
    }
  }

  /**
   * An upload stores its document, or leaves every document as it is; its object stays if it is stored or
   * cannot be deleted.
   */
  lemma SettleEffect(t: Holdings, lim: Limits, u: Upload, key: string, del: Deletion, after: Holdings,
      outcome: UploadOutcome)
    requires (after, outcome) == Settle(t, lim, u, key, del)
    ensures after.uploading == t.uploading - {key} && after.tombstones == t.tombstones && after.purges == t.purges
    ensures outcome.Stored? <==> Admits(t, lim, u) && (Exceeds(u, lim) ==> del.first)
    ensures after.q == if outcome.Stored? then WithUpload(t.q, u, lim, key) else t.q
    ensures after.objects == if (outcome.Stored? && !Exceeds(u, lim)) || CannotDelete(t, lim, u, del)
                             then t.objects else t.objects - {key}
  {
  }

  /** Room for one more material of that size. */
  ghost predicate HasRoom(docs: map<DocId, Doc>, app: AppId, lim: Limits, size: nat) {
    var mine := set d <- docs | docs[d].app == app;
    |mine| + 1 <= lim.applicationMaterials && TotalSize(docs, mine) + size <= lim.applicationBytes
  }

  /** What an upload is answered, as long as the store deletes what it is asked to. */
  ghost predicate Answers(t: Holdings, lim: Limits, u: Upload, answer: UploadOutcome) {
    if u.app !in t.q.apps then answer == Refused(NotFound)
    else if t.q.apps[u.app].state in {ReviewComplete, Archived} then answer == Refused(Conflict)
    else
      var k := IdemKey(u.actor, u.app, u.key);
      if k in t.idem then
        answer == if t.idem[k].requestHash == u.requestHash then Existing(t.idem[k].resource) else Refused(Conflict)
      else if exists d <- t.q.docs :: t.q.docs[d].app == u.app && t.q.docs[d].sha256 == u.sha256 then
        && answer.Existing? && answer.doc in t.q.docs
        && t.q.docs[answer.doc].app == u.app && t.q.docs[answer.doc].sha256 == u.sha256
      else answer == if HasRoom(t.q.docs, u.app, lim, u.size) then Stored(u.doc) else TooLarge
  }

  /**
   * The answer to every upload: unknown application, not modifiable, key known, digest known, no room, or else
   * stored, in this order; and an error instead when it needs to delete its object and cannot.
   */
  lemma SettleSays(t: Holdings, lim: Limits, u: Upload, key: string, del: Deletion, outcome: UploadOutcome)
    requires Bound(t) && outcome == Settle(t, lim, u, key, del).1
    ensures if del.first then Answers(t, lim, u, outcome)
            else if u.size <= lim.materialBytes && Answers(t, lim, u, Stored(u.doc)) then outcome == Stored(u.doc)
            else outcome == Refused(ServerError)
  {
    if u.app in t.q.apps {
      assert Duplicate(t.q.docs, u.app, u.sha256).Some? <==>
          exists d <- t.q.docs :: t.q.docs[d].app == u.app && t.q.docs[d].sha256 == u.sha256 by {
        if d :| d in t.q.docs && t.q.docs[d].app == u.app && t.q.docs[d].sha256 == u.sha256 {
          assert IsDuplicate(t.q.docs, u.app, u.sha256, d);
        }
      }
      assert MaterialsOf(t.q.docs, u.app) == set d <- t.q.docs | t.q.docs[d].app == u.app;
    }
  }

  /**
   * What a stored upload adds: its document and one job, which waits unless the material is too big or of a kind
   * that needs a person; and its application waits for review if no job is left to run.
   */
  lemma StoredSays(t: Holdings, lim: Limits, u: Upload, key: string, after: Holdings)
    requires u.app in t.q.apps && Mutable(t.q.apps[u.app].state) && u.doc !in t.q.docs && u.job !in t.q.jobs
    requires after == Admitted(t, u, lim, key)
    ensures var status := if u.size > lim.materialBytes then Failed
                          else if u.unsupported.Some? then ManualHandling else Waiting;
            && after.q.docs == t.q.docs[u.doc := Doc(u.app, u.sha256, u.size, key, u.format, status,
                                                     if status == Waiting then NotReady else PendingReview)]
            && u.job in after.q.jobs && after.q.jobs == t.q.jobs[u.job := after.q.jobs[u.job]]
            && after.q.jobs[u.job] == NewJob(u.doc, u.format, status, after.q.jobs[u.job].error, u.now)
            && after.q.jobs[u.job].error ==
                 (if u.size > lim.materialBytes then Some("material_size_limit_exceeded") else u.unsupported)
            && u.app in after.q.apps
            && after.q.apps == t.q.apps[u.app := t.q.apps[u.app].(state := after.q.apps[u.app].state)]
            && after.q.apps[u.app].state == (if HasActiveJobs(after.q, u.app) then Processing else AwaitingReview)
            && after.idem == t.idem[IdemKey(u.actor, u.app, u.key) := IdemRecord(u.requestHash, u.doc)]
            && (key in after.objects <==> key in t.objects && u.size <= lim.materialBytes)
  {
    var added := Queue(t.q.apps, after.q.docs, after.q.jobs);
    assert forall k <- after.q.jobs :: IsActiveJobOf(added, u.app, k) == IsActiveJobOf(after.q, u.app, k);
  }

  lemma SettleKeepsUploads(t: Holdings, lim: Limits, u: Upload, key: string, del: Deletion)
    requires UploadsKept(t, lim) && Enabled(t, SettleUpload(u, key, del))
    ensures UploadsKept(Settle(t, lim, u, key, del).0, lim)
  {
    var (after, outcome) := Settle(t, lim, u, key, del);
    if outcome.Stored? {
      AdmittedKeepsUploads(t, lim, u, key);
    } else {
      SettleEffect(t, lim, u, key, del, after, outcome);
      OnlyRecords(t, lim, u, key, del, after, outcome);
      RecordKeepsUploads(t, lim, u, after);
    }
  }

  /** An upload that stores no document at most records the one that is there. */
  lemma OnlyRecords(t: Holdings, lim: Limits, u: Upload, key: string, del: Deletion, after: Holdings,
      outcome: UploadOutcome)
    requires (after, outcome) == Settle(t, lim, u, key, del) && !outcome.Stored?
    ensures after.idem == t.idem || (exists d <- t.q.docs :: Records(t, u, d, after))
  {
    if after.idem != t.idem {
      assert Records(t, u, Duplicate(t.q.docs, u.app, u.sha256).value, after);
    }
  }

  ghost predicate Records(t: Holdings, u: Upload, d: DocId, after: Holdings) {
    && u.app in t.q.apps && d in t.q.docs && t.q.docs[d].app == u.app
    && after.idem == t.idem[KeyOf(u) := IdemRecord(u.requestHash, d)]
  }

  lemma RecordKeepsUploads(t: Holdings, lim: Limits, u: Upload, after: Holdings)
    requires UploadsKept(t, lim)
    requires after.q == t.q && after.tombstones == t.tombstones && after.purges == t.purges
    requires after.idem == t.idem || (exists d <- t.q.docs :: Records(t, u, d, after))
    ensures UploadsKept(after, lim)
  {
  }

  lemma AdmittedKeepsUploads(t: Holdings, lim: Limits, u: Upload, key: string)
    requires UploadsKept(t, lim) && u.doc !in t.q.docs && u.job !in t.q.jobs
    requires u.app in t.q.apps && Mutable(t.q.apps[u.app].state)
    requires Fits(t.q.docs, u.app, lim, u.size) && Duplicate(t.q.docs, u.app, u.sha256).None?
    ensures UploadsKept(Admitted(t, u, lim, key), lim)
  {
    OneMore(t.q.docs, u.doc, NewDoc(u, lim, key), lim);
    AddedDocument(t.q, u, lim, key);
    KeepsBinding(t, u, lim, key, Admitted(t, u, lim, key));
  }

  lemma KeepsBinding(t: Holdings, u: Upload, lim: Limits, key: string, after: Holdings)
    requires Bound(t) && NoReuse(t) && u.doc !in t.q.docs && u.app in t.q.apps
    requires after.q.docs == t.q.docs[u.doc := NewDoc(u, lim, key)] && after.q.apps.Keys == t.q.apps.Keys
    requires after.idem == t.idem[KeyOf(u) := IdemRecord(u.requestHash, u.doc)]
    requires after.tombstones == t.tombstones && after.purges == t.purges
    ensures Bound(after) && NoReuse(after)
  {
  }

  lemma AddedDocument(q: Queue, u: Upload, lim: Limits, key: string)
    requires u.app in q.apps && Mutable(q.apps[u.app].state) && u.doc !in q.docs && u.job !in q.jobs
    ensures var after := WithUpload(q, u, lim, key);
            && after.docs == q.docs[u.doc := NewDoc(u, lim, key)]
            && after.jobs.Keys == q.jobs.Keys + {u.job}
            && after.apps.Keys == q.apps.Keys
  {
  }

  lemma NextKeepsUploads(t: Holdings, lim: Limits, s: IntakeStep)
    requires Consistent(t.q) && UploadsKept(t, lim) && Enabled(t, s)
    ensures UploadsKept(Next(t, lim, s), lim)
  {
    match s {
      case QueueOnly(step) =>
        QueueStepKeepsMaterials(t.q, step);
        MaterialsUnchanged(t.q.docs, Apply(t.q, step).docs, lim);
      case SettleUpload(u, key, del) => SettleKeepsUploads(t, lim, u, key, del);
      case HardDelete(app, keys) => Fewer(t.q.docs, DeleteApp(t.q, app).docs, app, lim);
      case _ =>
    }
  }

  lemma NextKeepsQueue(t: Holdings, lim: Limits, s: IntakeStep)
    requires Consistent(t.q) && Enabled(t, s)
    ensures Consistent(Next(t, lim, s).q)
  {
    match s
    case QueueOnly(step) => ApplyKeeps(t.q, step);
    case SettleUpload(u, key, del) =>
      var (after, outcome) := Settle(t, lim, u, key, del);
      SettleEffect(t, lim, u, key, del, after, outcome);
      AddDocumentKeeps(t.q, u.doc, NewDoc(u, lim, key), u.job, ErrorAtUpload(u, lim), u.now);
    case HardDelete(app, keys) => DeleteKeeps(t.q, app);
    case _ =>
  }

  // ---------------------------------------------------------------------------
  // Accounting of the objects
  // ---------------------------------------------------------------------------

  /** A purge in progress has dealt with the first keys of its tombstone: each is gone or noted as remaining. */
  ghost predicate PurgeSound(t: Holdings, a: AppId)
    requires a in t.purges
  {
    var p := t.purges[a];
    && a in t.tombstones && t.tombstones[a] == p.keys && p.next <= |p.keys|
    && Elements(p.remaining) <= Elements(p.keys)
    && forall i | 0 <= i < p.next :: p.keys[i] in p.remaining || p.keys[i] !in t.objects
  }

  /** An upload in flight has a key of its own, and purges keep their books. */
  ghost predicate ObjectsTracked(t: Holdings) {
    && (forall key <- t.uploading :: !Owned(t, key))
    && (forall a <- t.purges :: PurgeSound(t, a))
  }

  /** Stored objects that no document, no upload in flight and no deletion knows of. */
  ghost function Lost(t: Holdings): set<string> {
    set key <- t.objects | key !in t.uploading && !Owned(t, key)
  }

  /** The object a step leaves behind. */
  ghost function LostBy(t: Holdings, lim: Limits, s: IntakeStep): set<string> {
    match s
    case SettleUpload(u, key, del) => if CannotDelete(t, lim, u, del) then {key} * t.objects else {}
    case AbandonUpload(key, deleted) => if !deleted then {key} * t.objects else {}
    case _ => {}
  }

  lemma OwnedWithNewDocument(t: Holdings, after: Holdings, d: DocId, doc: Doc)
    requires d !in t.q.docs && after.q.docs == t.q.docs[d := doc] && after.tombstones == t.tombstones
    ensures forall k: string :: Owned(after, k) <==> Owned(t, k) || k == doc.objectKey
  {
    forall k: string ensures Owned(after, k) <==> Owned(t, k) || k == doc.objectKey {
      if e :| e in t.q.docs && t.q.docs[e].objectKey == k {
        assert after.q.docs[e].objectKey == k;
      }
      assert after.q.docs[d].objectKey == doc.objectKey;
    }
  }

  /** An upload ends: its key is owned from now on, or its object is gone or left behind. */
  lemma EndedUpload(t: Holdings, after: Holdings, key: string)
    requires ObjectsTracked(t) && key in t.uploading
    requires after.uploading == t.uploading - {key}
    requires after.objects == t.objects || after.objects == t.objects - {key}
    requires after.purges == t.purges && after.tombstones == t.tombstones
    requires forall k: string | k != key :: Owned(after, k) <==> Owned(t, k)
    ensures ObjectsTracked(after)
    ensures Lost(after) == Lost(t) + if key in after.objects && !Owned(after, key) then {key} else {}
  {
    forall a <- after.purges ensures PurgeSound(after, a) {
      assert PurgeSound(t, a);
    }
  }

  lemma SettleKeepsObjects(t: Holdings, lim: Limits, u: Upload, key: string, del: Deletion, after: Holdings)
    requires ObjectsTracked(t) && Enabled(t, SettleUpload(u, key, del)) && after == Settle(t, lim, u, key, del).0
    ensures ObjectsTracked(after) && Lost(after) == Lost(t) + LostBy(t, lim, SettleUpload(u, key, del))
  {
    var outcome := Settle(t, lim, u, key, del).1;
    SettleEffect(t, lim, u, key, del, after, outcome);
    OwnersAfterUpload(t, lim, u, key, after, outcome.Stored?);
    EndedUpload(t, after, key);
  }

  lemma OwnersAfterUpload(t: Holdings, lim: Limits, u: Upload, key: string, after: Holdings, stored: bool)
    requires u.doc !in t.q.docs && u.job !in t.q.jobs && after.tombstones == t.tombstones
    requires stored ==> u.app in t.q.apps && Mutable(t.q.apps[u.app].state)
    requires after.q == if stored then WithUpload(t.q, u, lim, key) else t.q
    ensures forall k: string :: Owned(after, k) <==> Owned(t, k) || (stored && k == key)
  {
    if stored {
      AddedDocument(t.q, u, lim, key);
      OwnedWithNewDocument(t, after, u.doc, NewDoc(u, lim, key));
    } else {
      assert forall k: string :: Owned(after, k) == Owned(t, k);
    }
  }

  lemma DeletionKeepsOwners(t: Holdings, lim: Limits, app: AppId, keys: seq<string>)
    requires NoReuse(t) && Enabled(t, HardDelete(app, keys))
    ensures forall k: string :: Owned(Next(t, lim, HardDelete(app, keys)), k) <==> Owned(t, k)
  {
    var after := Next(t, lim, HardDelete(app, keys));
    forall k: string ensures Owned(after, k) <==> Owned(t, k) {
      if d :| d in t.q.docs && t.q.docs[d].objectKey == k {
        if t.q.docs[d].app == app {
          assert k in KeysOf(t.q.docs, app) && k in Elements(after.tombstones[app]);
        } else {
          assert after.q.docs[d].objectKey == k;
        }
      }
      if a :| a in t.tombstones && k in Elements(t.tombstones[a]) {
        assert k in Elements(after.tombstones[a]);
      }
      if k in Elements(keys) {
        assert k in KeysOf(t.q.docs, app);
      }
    }
  }

  lemma DeletionKeepsObjects(t: Holdings, lim: Limits, app: AppId, keys: seq<string>)
    requires NoReuse(t) && ObjectsTracked(t) && Enabled(t, HardDelete(app, keys))
    ensures var after := Next(t, lim, HardDelete(app, keys)); ObjectsTracked(after) && Lost(after) == Lost(t)
  {
    var after := Next(t, lim, HardDelete(app, keys));
    DeletionKeepsOwners(t, lim, app, keys);
    forall a <- after.purges ensures PurgeSound(after, a) {
      if a != app { assert PurgeSound(t, a); }
    }
  }

  lemma PurgeEndKeepsObjects(t: Holdings, lim: Limits, app: AppId)
    requires ObjectsTracked(t) && NoReuse(t) && Enabled(t, PurgeEnd(app))
    ensures var after := Next(t, lim, PurgeEnd(app)); ObjectsTracked(after) && Lost(after) == Lost(t)
  {
    var after, p := Next(t, lim, PurgeEnd(app)), t.purges[app];
    assert PurgeSound(t, app);
    forall key: string ensures Owned(after, key) ==> Owned(t, key) {
      if a :| a in after.tombstones && key in Elements(after.tombstones[a]) {
        assert key in Elements(t.tombstones[a]);
      }
    }
    forall key <- t.objects ensures Owned(t, key) ==> Owned(after, key) {
      if Owned(t, key) && !exists d <- t.q.docs :: t.q.docs[d].objectKey == key {
        var a :| a in t.tombstones && key in Elements(t.tombstones[a]);
        if a == app {
          var i :| 0 <= i < |p.keys| && p.keys[i] == key;
          var k :| 0 <= k < |p.remaining| && p.remaining[k] == key;
          assert key in Elements(p.remaining);
        }
        assert key in Elements(after.tombstones[a]);
      }
    }
    forall a <- after.purges ensures PurgeSound(after, a) {
      assert PurgeSound(t, a);
    }
  }

  lemma ElementsAppend(keys: seq<string>, key: string)
    ensures Elements(keys + [key]) == Elements(keys) + {key}
  {
    assert (keys + [key])[|keys|] == key;
    forall k <- keys ensures k in Elements(keys + [key]) {
      var i :| 0 <= i < |keys| && keys[i] == k;
      assert (keys + [key])[i] == k;
    }
  }

  lemma PurgeNextKeepsObjects(t: Holdings, lim: Limits, app: AppId, deleted: bool)
    requires ObjectsTracked(t) && Enabled(t, PurgeNext(app, deleted))
    ensures var after := Next(t, lim, PurgeNext(app, deleted)); ObjectsTracked(after) && Lost(after) == Lost(t)
  {
    var after, p := Next(t, lim, PurgeNext(app, deleted)), t.purges[app];
    assert PurgeSound(t, app);
    assert forall key: string :: Owned(after, key) == Owned(t, key);
    assert p.keys[p.next] in Elements(t.tombstones[app]);
    assert Owned(t, p.keys[p.next]);
    forall a <- after.purges ensures PurgeSound(after, a) {
      assert PurgeSound(t, a);
      if a == app && !deleted {
        var q := after.purges[app];
        ElementsAppend(p.remaining, p.keys[p.next]);
        assert p.keys[p.next] in Elements(p.keys);
        assert q.remaining[|p.remaining|] == p.keys[p.next];
      }
    }
  }

  lemma QueueOnlyKeepsObjects(t: Holdings, lim: Limits, step: QueueStep)
    requires Consistent(t.q) && ObjectsTracked(t) && Enabled(t, QueueOnly(step))
    ensures var after := Next(t, lim, QueueOnly(step)); ObjectsTracked(after) && Lost(after) == Lost(t)
  {
    var after := Next(t, lim, QueueOnly(step));
    QueueStepKeepsMaterials(t.q, step);
    forall key: string ensures Owned(after, key) == Owned(t, key) {
      if d :| d in t.q.docs && t.q.docs[d].objectKey == key {
        assert after.q.docs[d].objectKey == key;
      }
    }
    forall a <- after.purges ensures PurgeSound(after, a) {
      assert PurgeSound(t, a);
    }
  }

  /** A new upload, and the object it stores. */
  lemma UploadingKeepsObjects(t: Holdings, lim: Limits, s: IntakeStep)
    requires ObjectsTracked(t) && Enabled(t, s) && (s.StartUpload? || s.PutObject? || s.PurgeCrash?)
    ensures ObjectsTracked(Next(t, lim, s)) && Lost(Next(t, lim, s)) == Lost(t)
  {
    var after := Next(t, lim, s);
    assert forall key: string :: Owned(after, key) == Owned(t, key);
    forall a <- after.purges ensures PurgeSound(after, a) {
      assert PurgeSound(t, a);
      assert forall k <- t.uploading :: k !in Elements(t.tombstones[a]);
    }
  }

  /**
   * A step loses exactly the object of an upload that it ends without a document and without deleting it:
   * because the store fails, or because the process does. Nothing lost is ever found again.
   */
  lemma NextKeepsObjects(t: Holdings, lim: Limits, s: IntakeStep)
    requires Consistent(t.q) && NoReuse(t) && ObjectsTracked(t) && Enabled(t, s)
    ensures ObjectsTracked(Next(t, lim, s)) && Lost(Next(t, lim, s)) == Lost(t) + LostBy(t, lim, s)
  {
    match s
    case QueueOnly(step) => QueueOnlyKeepsObjects(t, lim, step);
    case SettleUpload(u, key, del) => SettleKeepsObjects(t, lim, u, key, del, Settle(t, lim, u, key, del).0);
    case AbandonUpload(key, deleted) =>
      assert forall k: string :: Owned(Dropped(t, key, deleted), k) == Owned(t, k);
      EndedUpload(t, Dropped(t, key, deleted), key);
    case HardDelete(app, keys) => DeletionKeepsObjects(t, lim, app, keys);
    case PurgeNext(app, deleted) => PurgeNextKeepsObjects(t, lim, app, deleted);
    case PurgeEnd(app) => PurgeEndKeepsObjects(t, lim, app);
    case _ => UploadingKeepsObjects(t, lim, s);
  }

  // ---------------------------------------------------------------------------
  // Every run
  // ---------------------------------------------------------------------------

  ghost predicate Sound(t: Holdings, lim: Limits) {
    Consistent(t.q) && UploadsKept(t, lim) && ObjectsTracked(t)
  }

  ghost predicate EnabledRun(t: Holdings, lim: Limits, steps: seq<IntakeStep>)
    decreases |steps|
  {
    steps == [] || (Enabled(t, steps[0]) && EnabledRun(Next(t, lim, steps[0]), lim, steps[1..]))
  }

  ghost function After(t: Holdings, lim: Limits, steps: seq<IntakeStep>): Holdings
    requires EnabledRun(t, lim, steps)
    decreases |steps|
  {
    if steps == [] then t else After(Next(t, lim, steps[0]), lim, steps[1..])
  }

  /** The objects a run leaves behind. */
  ghost function LostIn(t: Holdings, lim: Limits, steps: seq<IntakeStep>): set<string>
    requires EnabledRun(t, lim, steps)
    decreases |steps|
  {
    if steps == [] then {}
    else LostBy(t, lim, steps[0]) + LostIn(Next(t, lim, steps[0]), lim, steps[1..])
  }

  /** An upload that is admitted and not too big, from first step to last: its object stays with its document. */
  lemma UploadGetsDone(t: Holdings, lim: Limits, u: Upload, key: string, del: Deletion)
    requires Enabled(t, StartUpload(key)) && Admits(t, lim, u) && u.size <= lim.materialBytes
    requires u.doc !in t.q.docs && u.job !in t.q.jobs
    ensures var steps := [StartUpload(key), PutObject(key), SettleUpload(u, key, del)];
            && EnabledRun(t, lim, steps)
            && var after := After(t, lim, steps);
               && after.objects == t.objects + {key} && after.uploading == t.uploading
               && after.q == WithUpload(t.q, u, lim, key)
               && after.idem == t.idem[IdemKey(u.actor, u.app, u.key) := IdemRecord(u.requestHash, u.doc)]
               && after.tombstones == t.tombstones && after.purges == t.purges
  {
    var steps := [StartUpload(key), PutObject(key), SettleUpload(u, key, del)];
    var started := Next(t, lim, steps[0]);
    var put := Next(started, lim, steps[1]);
    assert steps[1..][1..] == steps[2..] && steps[2..][1..] == [];
    assert EnabledRun(put, lim, steps[2..]) && EnabledRun(started, lim, steps[1..]);
    assert After(put, lim, steps[2..]) == Next(put, lim, steps[2]);
    assert started.uploading - {key} == t.uploading;
  }

  const NOTHING := Holdings(Queue(map[], map[], map[]), map[], {}, {}, map[], map[])

  lemma NothingIsSound(lim: Limits)
    ensures Sound(NOTHING, lim) && Lost(NOTHING) == {}
  {
  }

  /**
   * Limits, digests, bindings and objects over all runs; what an idempotency key is bound to never changes;
   * and the lost objects are exactly those that some step of the run left behind.
   */
  lemma {:induction false} RunsStaySound(t: Holdings, lim: Limits, steps: seq<IntakeStep>)
    requires Sound(t, lim) && EnabledRun(t, lim, steps)
    ensures Sound(After(t, lim, steps), lim)
    ensures forall k <- t.idem :: k in After(t, lim, steps).idem && After(t, lim, steps).idem[k] == t.idem[k]
    ensures Lost(After(t, lim, steps)) == Lost(t) + LostIn(t, lim, steps)
    decreases |steps|
  {
    if steps != [] {
      NextKeepsQueue(t, lim, steps[0]);
      NextKeepsUploads(t, lim, steps[0]);
      NextKeepsObjects(t, lim, steps[0]);
      NextKeepsRecords(t, lim, steps[0]);
      RunsStaySound(Next(t, lim, steps[0]), lim, steps[1..]);
    }
  }

  /** No store failed to delete an object of an upload, and no upload was abandoned with its object. */
  predicate Undisturbed(s: IntakeStep) {
    (s.SettleUpload? ==> s.del.first) && (s.AbandonUpload? ==> s.deleted)
  }

  /** Without such an event, every stored object belongs to a document, an upload in flight or a tombstone. */
  lemma NothingIsLost(t: Holdings, lim: Limits, steps: seq<IntakeStep>)
    requires Sound(t, lim) && EnabledRun(t, lim, steps) && Lost(t) == {}
    requires forall i | 0 <= i < |steps| :: Undisturbed(steps[i])
    ensures var after := After(t, lim, steps);
            forall key <- after.objects :: key in after.uploading || Owned(after, key)
  {
    RunsStaySound(t, lim, steps);
    NoneLeftBehind(t, lim, steps);
    var after := After(t, lim, steps);
    forall key <- after.objects ensures key in after.uploading || Owned(after, key) {
      assert key !in Lost(after);
    }
  }

  lemma {:induction false} NoneLeftBehind(t: Holdings, lim: Limits, steps: seq<IntakeStep>)
    requires EnabledRun(t, lim, steps) && forall i | 0 <= i < |steps| :: Undisturbed(steps[i])
    ensures LostIn(t, lim, steps) == {}
    decreases |steps|
  {
    if steps != [] {
      assert Undisturbed(steps[0]);
      NoneLeftBehind(Next(t, lim, steps[0]), lim, steps[1..]);
    }
  }

  lemma NextKeepsRecords(t: Holdings, lim: Limits, s: IntakeStep)
    requires Enabled(t, s)
    ensures forall k <- t.idem :: k in Next(t, lim, s).idem && Next(t, lim, s).idem[k] == t.idem[k]
  {
  }

  lemma SettleRecords(t: Holdings, lim: Limits, u: Upload, key: string, del: Deletion)
    requires var outcome := Settle(t, lim, u, key, del).1; outcome.Stored? || outcome.Existing?
    ensures var (after, outcome) := Settle(t, lim, u, key, del);
            KeyOf(u) in after.idem && after.idem[KeyOf(u)] == IdemRecord(u.requestHash, outcome.doc)
  {
  }

  /**
   * What an upload does whose key is recorded with its hash: nothing but remove its own object, if the store
   * lets it.
   */
  function Replayed(t: Holdings, lim: Limits, u: Upload, key: string, del: Deletion, doc: DocId)
    : (Holdings, UploadOutcome)
  {
    if del.first then (Dropped(t, key, true), Existing(doc))
    else (Dropped(t, key, !Exceeds(u, lim) && del.second), Refused(ServerError))
  }

  lemma RecordedUploadReplays(t: Holdings, lim: Limits, u: Upload, key: string, del: Deletion)
    requires Bound(t) && u.app in t.q.apps && Mutable(t.q.apps[u.app].state)
    requires KeyOf(u) in t.idem && t.idem[KeyOf(u)].requestHash == u.requestHash
    ensures Settle(t, lim, u, key, del) == Replayed(t, lim, u, key, del, t.idem[KeyOf(u)].resource)
  {
  }

  /**
   * Sending an accepted upload again, any time later while the application can be modified, returns the same
   * document; nothing changes but that the new upload's own object is gone. When the store fails to delete
   * that object the answer is an error, and still no document, job or record changes.
   */
  lemma AcceptedUploadReplays(
    t: Holdings, lim: Limits, u: Upload, key: string, del: Deletion, later: seq<IntakeStep>,
    again: Upload, againKey: string, againDel: Deletion)
    requires Sound(t, lim) && Enabled(t, SettleUpload(u, key, del))
    requires var outcome := Settle(t, lim, u, key, del).1; outcome.Stored? || outcome.Existing?
    requires EnabledRun(Settle(t, lim, u, key, del).0, lim, later)
    requires KeyOf(again) == KeyOf(u) && again.requestHash == u.requestHash
    requires var now := After(Settle(t, lim, u, key, del).0, lim, later);
             u.app in now.q.apps && Mutable(now.q.apps[u.app].state)
    ensures var now := After(Settle(t, lim, u, key, del).0, lim, later);
            Settle(now, lim, again, againKey, againDel)
            == Replayed(now, lim, again, againKey, againDel, Settle(t, lim, u, key, del).1.doc)
  {
    var step := SettleUpload(u, key, del);
    NextKeepsQueue(t, lim, step);
    NextKeepsUploads(t, lim, step);
    NextKeepsObjects(t, lim, step);
    RunsStaySound(Next(t, lim, step), lim, later);
    SettleRecords(t, lim, u, key, del);
    RecordedUploadReplays(After(Next(t, lim, step), lim, later), lim, again, againKey, againDel);
  }
}
