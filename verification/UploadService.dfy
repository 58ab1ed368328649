/** The repositories, the object storage and the upload use case as they change their
    state, each call proved against the step system of the protocol. */
module UploadService {
  import opened Common
  import opened UploadReader
  import opened UploadProtocol
  import opened UploadSafety

  /** The fate of one storage call: whether it took effect and whether it reported success. */
  datatype Fate = Fate(happened: bool, ok: bool) {
    predicate Effective() { happened || ok }
  }

  /** Nothing but the entry of `key` differs, and no entry comes or goes. */
  ghost predicate OnlyChanges<K(!new), V>(before: map<K, V>, after: map<K, V>, key: K) {
    && after.Keys == before.Keys
    && forall k :: k in before && k != key ==> after[k] == before[k]
  }

  class SqlAlchemyDocumentRepository {
    var rows: map<Rid, Document>

    constructor (rows: map<Rid, Document>)
      ensures this.rows == rows
    {
      this.rows := rows;
    }

    /** The unique constraint on (organization, content hash) refuses a second document. */
    method AddDocument(id: Rid, document: Document) returns (added: bool)
      modifies this
      ensures added <==> !HasOwner(old(rows), document.org, document.hash)
      ensures rows == if added then old(rows)[id := document] else old(rows)
    {
      if HasOwner(rows, document.org, document.hash) { return false; }
      rows := rows[id := document];
      added := true;
    }

    /** At most one row joins, so whichever is found is the one. */
    method FindDocumentByTenantContentHash(org: Org, hash: string) returns (found: Option<Rid>)
      ensures found.None? <==> !HasOwner(rows, org, hash)
      ensures found.Some? ==> found.value in rows && OwnsHash(rows[found.value], org, hash)
    {
      if !HasOwner(rows, org, hash) { return None; }
      var d :| d in rows && OwnsHash(rows[d], org, hash);
      found := Some(d);
    }

    /** A missing version is an error; otherwise its state alone changes, whatever the
        document's own state and lock version are. */
    method MarkVersion(id: Rid, state: StorageState) returns (found: bool)
      modifies this
      ensures found <==> id in old(rows)
      ensures OnlyChanges(old(rows), rows, id)
      ensures found ==>
        && rows[id].storage == state && rows[id].status == old(rows)[id].status && rows[id].lockVersion == old(rows)[id].lockVersion
        && rows[id].org == old(rows)[id].org && rows[id].hash == old(rows)[id].hash && rows[id].byteSize == old(rows)[id].byteSize
    {
      found := id in rows;
      if found { rows := rows[id := rows[id].(storage := state)]; }
    }

    /** A conditional update on the expected lock version; a miss, or a row that is not
        there, goes unnoticed. */
    method PersistDocumentState(id: Rid, status: DocumentStatus, lockVersion: nat)
      modifies this
      ensures OnlyChanges(old(rows), rows, id)
      ensures id in rows ==>
        && rows[id].storage == old(rows)[id].storage
        && rows[id].org == old(rows)[id].org && rows[id].hash == old(rows)[id].hash && rows[id].byteSize == old(rows)[id].byteSize
        && (rows[id].status, rows[id].lockVersion)
           == if old(rows)[id].lockVersion == lockVersion - 1 then (status, lockVersion) else (old(rows)[id].status, old(rows)[id].lockVersion)
    {
      if id in rows && rows[id].lockVersion == lockVersion - 1 {
        rows := rows[id := rows[id].(status := status, lockVersion := lockVersion)];
      }
    }
  }

  class SqlAlchemyUploadIdempotencyRepository {
    var records: map<(Org, string), Record>

    constructor (records: map<(Org, string), Record>)
      ensures this.records == records
    {
      this.records := records;
    }

    method Reserve(slot: (Org, string)) returns (record: Record)
      modifies this
      ensures slot in records && record == records[slot]
      ensures records == if slot in old(records) then old(records) else old(records)[slot := RESERVED]
    {
      if slot !in records { records := records[slot := RESERVED]; }
      record := records[slot];
    }

    /** The first half of mark_in_progress: only a retryable failure may go back in progress;
        anything else, or no record, is an error. */
    method MayRetry(slot: (Org, string)) returns (ok: bool)
      ensures ok <==> slot in records && records[slot].status == Status.Failed && records[slot].retryable
    {
      ok := slot in records && records[slot].status == Status.Failed && records[slot].retryable;
    }

    /** Its second half, the flush: the row, read without a lock, is written as it is by now. */
    method MarkInProgress(slot: (Org, string))
      requires slot in records
      modifies this
      ensures OnlyChanges(old(records), records, slot)
      ensures records[slot].status == InProgress && !records[slot].retryable
      ensures records[slot].responseStatus == None && records[slot].errorCode == None
      ensures records[slot].fingerprint == old(records)[slot].fingerprint && records[slot].document == old(records)[slot].document
      ensures records[slot].duplicate == old(records)[slot].duplicate
    {
      var r := records[slot];
      records := records[slot := Record(InProgress, r.fingerprint, r.document, None, r.duplicate, None, false)];
    }

    method FinalizeFingerprint(slot: (Org, string), fingerprint: string) returns (found: bool)
      modifies this
      ensures found <==> slot in old(records)
      ensures OnlyChanges(old(records), records, slot)
      ensures found ==>
        && records[slot].fingerprint == Some(fingerprint)
        && records[slot].(fingerprint := None) == old(records)[slot].(fingerprint := None)
    {
      found := slot in records;
      if found { records := records[slot := records[slot].(fingerprint := Some(fingerprint))]; }
    }

    method Complete(slot: (Org, string), fingerprint: string, document: Rid, responseStatus: int, duplicate: bool) returns (found: bool)
      modifies this
      ensures found <==> slot in old(records)
      ensures OnlyChanges(old(records), records, slot)
      ensures found ==>
        var r := records[slot];
        && r.status == Completed && r.fingerprint == Some(fingerprint) && r.document == Some(document)
        && r.responseStatus == Some(responseStatus) && r.duplicate == duplicate && r.errorCode == None && !r.retryable
    {
      found := slot in records;
      if found {
        records := records[slot := Record(Completed, Some(fingerprint), Some(document), Some(responseStatus), duplicate, None, false)];
      }
    }

    method Fail(slot: (Org, string), fingerprint: Option<string>, code: string, responseStatus: int, retryable: bool) returns (found: bool)
      modifies this
      ensures found <==> slot in old(records)
      ensures OnlyChanges(old(records), records, slot)
      ensures found ==>
        var r := records[slot];
        && r.status == Status.Failed && r.fingerprint == fingerprint && r.document == old(records)[slot].document
        && r.responseStatus == Some(responseStatus) && !r.duplicate && r.errorCode == Some(code) && r.retryable == retryable
    {
      found := slot in records;
      if found {
        var r := records[slot];
        records := records[slot := Record(Status.Failed, fingerprint, r.document, Some(responseStatus), false, Some(code), retryable)];
      }
    }
  }

  /** Objects other than `key` are untouched. */
  ghost predicate OnlyObject(before: map<ObjectKey, Bytes>, after: map<ObjectKey, Bytes>, key: ObjectKey) {
    forall k :: k != key ==> (k in after <==> k in before) && (k in before ==> after[k] == before[k])
  }

  class S3ObjectStorage {
    var objects: map<ObjectKey, Bytes>

    constructor (objects: map<ObjectKey, Bytes>)
      ensures this.objects == objects
    {
      this.objects := objects;
    }

    method PutTempStream(org: Org, upload: Rid, data: Bytes, fate: Fate) returns (ok: bool)
      modifies this
      ensures ok == fate.ok && OnlyObject(old(objects), objects, Temp(org, upload))
      ensures if fate.Effective() then Temp(org, upload) in objects && objects[Temp(org, upload)] == data else objects == old(objects)
    {
      if fate.Effective() { objects := objects[Temp(org, upload) := data]; }
      ok := fate.ok;
    }

    method DeleteTemp(org: Org, upload: Rid, fate: Fate) returns (ok: bool)
      modifies this
      ensures ok == fate.ok && OnlyObject(old(objects), objects, Temp(org, upload))
      ensures if fate.Effective() then Temp(org, upload) !in objects else objects == old(objects)
    {
      if fate.Effective() { objects := objects - {Temp(org, upload)}; }
      ok := fate.ok;
    }

    /** copy_object fails without effect when the source is missing. */
    method CopyToFinal(org: Org, upload: Rid, hash: string, fate: Fate) returns (ok: bool)
      modifies this
      ensures ok <==> fate.ok && Temp(org, upload) in old(objects)
      ensures OnlyObject(old(objects), objects, Final(org, hash))
      ensures if fate.Effective() && Temp(org, upload) in old(objects)
              then Final(org, hash) in objects && objects[Final(org, hash)] == old(objects)[Temp(org, upload)]
              else objects == old(objects)
    {
      ok := false;
      if Temp(org, upload) in objects {
        if fate.Effective() { objects := objects[Final(org, hash) := objects[Temp(org, upload)]]; }
        ok := fate.ok;
      }
    }

    method HeadObject(key: ObjectKey, fate: Fate) returns (r: Result<Option<nat>, ()>)
      ensures r == if !fate.ok then Failure(()) else if key in objects then Success(Some(|objects[key]|)) else Success(None)
    {
      if !fate.ok { return Failure(()); }
      r := Success(if key in objects then Some(|objects[key]|) else None);
    }
  }

  // ---------- steps and the requests around them ----------

  lemma {:induction false} AfterAppend(h: Digests, w: World, a: seq<Event>, b: seq<Event>)
    ensures After(h, w, a + b) == After(h, After(h, w, a), b)
  {
    if b == [] {
      assert a + b == a;
    } else {
      AfterAppend(h, w, a, b[..|b| - 1]);
      assert (a + b)[..|a + b| - 1] == a + b[..|b| - 1];
    }
  }

  /** Where a request stands: it is at this phase of a state the invariant holds of, and once
      it has reserved its key the key's record exists. */
  ghost predicate Stands(h: Digests, w: World, rid: Rid, q: Request) {
    && Inv(h, w) && rid in w.requests && w.requests[rid] == q
    && (q.phase.Retrying? || q.phase.Claiming? || q.phase.Reading? || AfterPreparing(q.phase) ==> (q.org, q.key) in w.records)
  }

  /** The request's next step, as an event and as an effect. */
  lemma OwnStep(h: Digests, w: World, rid: Rid, q: Request, fate: Fate)
    requires Stands(h, w, rid, q)
    ensures var next := After(h, w, [Advance(rid, fate.happened, fate.ok)]);
      && next == Apply(w, rid, Next(h, w, rid, fate.happened, fate.ok))
      && Inv(h, next) && next.requests[rid] == q.(phase := Next(h, w, rid, fate.happened, fate.ok).phase)
      && w.records.Keys <= next.records.Keys
  {
    var e := Advance(rid, fate.happened, fate.ok);
    assert After(h, w, []) == w && [e][..0] == [];
    StepKeepsInv(h, w, e);
  }

  /** A step that only moves the request on. */
  lemma QuietStep(h: Digests, w: World, rid: Rid, q: Request, fate: Fate, next: Phase)
    requires Stands(h, w, rid, q) && Next(h, w, rid, fate.happened, fate.ok) == Move(next) && AfterPreparing(q.phase)
    ensures After(h, w, [Advance(rid, fate.happened, fate.ok)]) == w.(requests := w.requests[rid := q.(phase := next)])
    ensures Stands(h, After(h, w, [Advance(rid, fate.happened, fate.ok)]), rid, q.(phase := next))
  {
    OwnStep(h, w, rid, q, fate);
  }

  /** A step with a known effect, as a world. */
  lemma StepIs(h: Digests, w: World, rid: Rid, fate: Fate, e: Effect)
    requires rid in w.requests && Next(h, w, rid, fate.happened, fate.ok) == e
    ensures After(h, w, [Advance(rid, fate.happened, fate.ok)]) == Apply(w, rid, e)
  {
    assert After(h, w, []) == w && [Advance(rid, fate.happened, fate.ok)][..0] == [];
  }

  lemma SettlingEffect(h: Digests, w: World, rid: Rid, stored: bool)
    requires rid in w.requests && w.requests[rid].phase == (if stored then Publishing else Failing) && w.requests[rid].input.Success?
    requires (w.requests[rid].org, w.requests[rid].key) in w.records
    ensures var q := w.requests[rid];
      var record := w.records[(q.org, q.key)];
      Next(h, w, rid, false, false)
        == if stored then Effect(Done(Created(rid)), KeepObjects, SettleDocument(true),
                                 Some(record.Complete(Fingerprint(h, q.input.value), rid, 201, false)))
           else Effect(Done(Unavailable), KeepObjects, SettleDocument(false),
                       Some(record.Fail(Some(Fingerprint(h, q.input.value)), "object_storage_unavailable", 503, true)))
  {
  }

  lemma SettlingWorld(h: Digests, w: World, rid: Rid, q: Request, stored: bool, r: Record)
    requires rid in w.requests && w.requests[rid] == q && q.phase == (if stored then Publishing else Failing) && q.input.Success?
    requires (q.org, q.key) in w.records && rid in w.documents
    requires r == if stored then w.records[(q.org, q.key)].Complete(Fingerprint(h, q.input.value), rid, 201, false)
                  else w.records[(q.org, q.key)].Fail(Some(Fingerprint(h, q.input.value)), "object_storage_unavailable", 503, true)
    ensures var after := After(h, w, [Advance(rid, false, false)]);
      && after.records == w.records[(q.org, q.key) := r]
      && after.documents == w.documents[rid := w.documents[rid].Settle(stored)] && after.objects == w.objects
  {
    SettlingEffect(h, w, rid, stored);
    StepIs(h, w, rid, NO_CALL, Next(h, w, rid, false, false));
  }

  lemma SettlingStands(h: Digests, w: World, rid: Rid, q: Request, stored: bool)
    requires Stands(h, w, rid, q) && q.phase == (if stored then Publishing else Failing) && q.input.Success?
    ensures Stands(h, After(h, w, [Advance(rid, false, false)]), rid, q.(phase := Done(if stored then Created(rid) else Unavailable)))
  {
    SettlingEffect(h, w, rid, stored);
    OwnStep(h, w, rid, q, NO_CALL);
  }

  lemma CopyEffect(h: Digests, w: World, rid: Rid, fate: Fate)
    requires rid in w.requests && w.requests[rid].phase == Copying && w.requests[rid].input.Success?
    ensures var q := w.requests[rid];
      Next(h, w, rid, fate.happened, fate.ok)
        == if Temp(q.org, rid) !in w.objects then Move(Failing)
           else Call(if fate.ok then Unstaging else Failing, fate.Effective(), CopyFinal(h.content(q.input.value.data)))
  {
  }

  lemma CopiedObjects(before: map<ObjectKey, Bytes>, after: map<ObjectKey, Bytes>, org: Org, rid: Rid, hash: string, effective: bool)
    requires OnlyObject(before, after, Final(org, hash))
    requires if effective && Temp(org, rid) in before
             then Final(org, hash) in after && after[Final(org, hash)] == before[Temp(org, rid)] else after == before
    ensures after == ApplyObjects(before, org, rid, if effective then CopyFinal(hash) else KeepObjects)
  {
  }

  lemma DroppedObjects(before: map<ObjectKey, Bytes>, after: map<ObjectKey, Bytes>, org: Org, rid: Rid, effective: bool)
    requires OnlyObject(before, after, Temp(org, rid))
    requires if effective then Temp(org, rid) !in after else after == before
    ensures after == ApplyObjects(before, org, rid, if effective then DropTemp else KeepObjects)
  {
  }

  /** Events of the other requests, and of archiving. */
  predicate Others(rid: Rid, events: seq<Event>) {
    forall i :: 0 <= i < |events| ==> !(events[i].Advance? && events[i].rid == rid) && !(events[i].Stop? && events[i].rid == rid)
  }

  /** Whatever the others do, the request still stands where it stood. */
  lemma {:induction false} OthersLeaveRequest(h: Digests, w: World, rid: Rid, q: Request, events: seq<Event>)
    requires Stands(h, w, rid, q) && Others(rid, events)
    ensures Stands(h, After(h, w, events), rid, q)
  {
    if events != [] {
      var init := events[..|events| - 1];
      OthersLeaveRequest(h, w, rid, q, init);
      StepKeepsInv(h, After(h, w, init), events[|events| - 1]);
    }
  }

  /** The document a request holds, and the one owner of its bytes. */
  lemma HeldDocument(h: Digests, w: World, rid: Rid, q: Request)
    requires Stands(h, w, rid, q) && HoldsDocument(q.phase)
    ensures rid in w.documents && q.input.Success?
  {
    assert PhaseFits(h, w.documents, w.objects, rid, q);
  }

  lemma OwnerIs(h: Digests, w: World, org: Org, hash: string, d: Rid)
    requires Inv(h, w) && d in w.documents && OwnsHash(w.documents[d], org, hash)
    ensures HasOwner(w.documents, org, hash) && Owner(w.documents, org, hash) == d
  {
  }

  lemma RecordIs(before: map<(Org, string), Record>, after: map<(Org, string), Record>, slot: (Org, string), r: Record)
    requires OnlyChanges(before, after, slot) && slot in before && after[slot] == r
    ensures after == before[slot := r]
  {
  }

  /** Version state and conditional row update together settle the document. */
  lemma SettledRow(before: map<Rid, Document>, middle: map<Rid, Document>, after: map<Rid, Document>, id: Rid, stored: bool)
    requires id in before && OnlyChanges(before, middle, id) && OnlyChanges(middle, after, id)
    requires middle[id] == before[id].(storage := if stored then StoredVersion else FailedVersion)
    requires after[id] == if middle[id].lockVersion == 1 then middle[id].(status := if stored then Stored else FailedDocument, lockVersion := 2) else middle[id]
    ensures after == before[id := before[id].Settle(stored)]
  {
  }

  /** One fate for each storage call a request can make. */
  datatype StorageFates = StorageFates(put: Fate, abandon: Fate, link: Fate, head: Fate, copy: Fate, unstage: Fate, confirm: Fate, tidy: Fate)

  const NO_CALL := Fate(false, false)

  function EventOf(rid: Rid, fate: Fate): Event {
    Advance(rid, fate.happened, fate.ok)
  }

  class UploadDocument {
    const documents: SqlAlchemyDocumentRepository
    const idempotency: SqlAlchemyUploadIdempotencyRepository
    const storage: S3ObjectStorage
    const h: Digests

    constructor (documents: SqlAlchemyDocumentRepository, idempotency: SqlAlchemyUploadIdempotencyRepository, storage: S3ObjectStorage, h: Digests)
      ensures this.documents == documents && this.idempotency == idempotency && this.storage == storage && this.h == h
    {
      this.documents := documents;
      this.idempotency := idempotency;
      this.storage := storage;
      this.h := h;
    }

    /** The three stores are those of the world. */
    ghost predicate Mirrors(w: World)
      reads documents, idempotency, storage
    {
      documents.rows == w.documents && idempotency.records == w.records && storage.objects == w.objects
    }

    ghost predicate At(w: World, rid: Rid, q: Request)
      reads documents, idempotency, storage
    {
      Mirrors(w) && Stands(h, w, rid, q)
    }

    /** A moment at which other requests may run. Callers know nothing but this contract, so
        they are proved for every such interleaving. */
    method Pause(ghost w: World, rid: Rid, q: Request) returns (ghost after: World, ghost events: seq<Event>)
      requires At(w, rid, q)
      modifies documents, idempotency, storage
      ensures At(after, rid, q) && after == After(h, w, events) && Others(rid, events)
    {
      after, events := w, [];
    }

    method DropTemp(ghost w: World, rid: Rid, q: Request, fate: Fate, next: Phase) returns (ok: bool, ghost after: World)
      requires At(w, rid, q) && q.input.Success? && Next(h, w, rid, fate.happened, fate.ok) == UploadProtocol.Call(next, fate.Effective(), UploadProtocol.DropTemp)
      requires AfterPreparing(q.phase)
      modifies storage
      ensures ok == fate.ok && after == After(h, w, [EventOf(rid, fate)]) && At(after, rid, q.(phase := next))
    {
      OwnStep(h, w, rid, q, fate);
      ok := storage.DeleteTemp(q.org, rid, fate);
      DroppedObjects(w.objects, storage.objects, q.org, rid, fate.Effective());
      after := After(h, w, [EventOf(rid, fate)]);
    }

    method CompleteKey(slot: (Org, string), fingerprint: string, document: Rid, responseStatus: int, duplicate: bool)
      requires slot in idempotency.records
      modifies idempotency
      ensures idempotency.records
        == old(idempotency.records)[slot := old(idempotency.records)[slot].Complete(fingerprint, document, responseStatus, duplicate)]
    {
      ghost var before := idempotency.records;
      var found := idempotency.Complete(slot, fingerprint, document, responseStatus, duplicate);
      RecordIs(before, idempotency.records, slot, before[slot].Complete(fingerprint, document, responseStatus, duplicate));
    }

    method FailKey(slot: (Org, string), fingerprint: Option<string>, code: string, responseStatus: int, retryable: bool)
      requires slot in idempotency.records
      modifies idempotency
      ensures idempotency.records
        == old(idempotency.records)[slot := old(idempotency.records)[slot].Fail(fingerprint, code, responseStatus, retryable)]
    {
      ghost var before := idempotency.records;
      var found := idempotency.Fail(slot, fingerprint, code, responseStatus, retryable);
      RecordIs(before, idempotency.records, slot, before[slot].Fail(fingerprint, code, responseStatus, retryable));
    }

    /** The linked document's id goes into the record, after the temporary object is dropped. */
    method CompleteDuplicate(ghost w: World, rid: Rid, q: Request, duplicate: Rid, link: Fate)
      returns (ghost after: World, ghost events: seq<Event>)
      requires At(w, rid, q) && q.phase == Linking(duplicate) && q.input.Success?
      modifies documents, idempotency, storage
      ensures At(after, rid, q.(phase := Done(Duplicate(duplicate)))) && after == After(h, w, events)
    {
      ghost var w1, w2, others;
      var deleted;
      deleted, w1 := DropTemp(w, rid, q, link, Completing(duplicate));
      w2, others := Pause(w1, rid, q.(phase := Completing(duplicate)));
      after := RecordDuplicate(w2, rid, q.(phase := Completing(duplicate)), duplicate);
      events := [EventOf(rid, link)] + others + [EventOf(rid, NO_CALL)];
      AfterAppend(h, w, [EventOf(rid, link)], others);
      AfterAppend(h, w, [EventOf(rid, link)] + others, [EventOf(rid, NO_CALL)]);
    }

    method RecordDuplicate(ghost w: World, rid: Rid, q: Request, duplicate: Rid) returns (ghost after: World)
      requires At(w, rid, q) && q.phase == Completing(duplicate) && q.input.Success?
      modifies idempotency
      ensures After(h, w, [EventOf(rid, NO_CALL)]) == after && At(after, rid, q.(phase := Done(Duplicate(duplicate))))
    {
      OwnStep(h, w, rid, q, NO_CALL);
      var slot, fingerprint := (q.org, q.key), Fingerprint(h, q.input.value);
      CompleteKey(slot, fingerprint, duplicate, 200, true);
      after := After(h, w, [EventOf(rid, NO_CALL)]);
    }

    /** The version's state, and the document's if its row has not moved on. */
    method SettleDocument(id: Rid, stored: bool)
      requires id in documents.rows
      modifies documents
      ensures documents.rows == old(documents.rows)[id := old(documents.rows)[id].Settle(stored)]
    {
      ghost var before := documents.rows;
      var found := documents.MarkVersion(id, if stored then StoredVersion else FailedVersion);
      ghost var middle := documents.rows;
      documents.PersistDocumentState(id, if stored then Stored else FailedDocument, 2);
      SettledRow(before, middle, documents.rows, id, stored);
    }

    /** Record the storage failure on version, document and key. */
    method MarkUploadStorageFailed(ghost w: World, rid: Rid, q: Request) returns (ghost after: World)
      requires At(w, rid, q) && q.phase == Failing
      modifies documents, idempotency
      ensures After(h, w, [EventOf(rid, NO_CALL)]) == after && At(after, rid, q.(phase := Done(Unavailable)))
    {
      HeldDocument(h, w, rid, q);
      var slot, fingerprint := (q.org, q.key), Fingerprint(h, q.input.value);
      SettlingWorld(h, w, rid, q, false, w.records[slot].Fail(Some(fingerprint), "object_storage_unavailable", 503, true));
      SettlingStands(h, w, rid, q, false);
      SettleDocument(rid, false);
      FailKey(slot, Some(fingerprint), "object_storage_unavailable", 503, true);
      after := After(h, w, [EventOf(rid, NO_CALL)]);
    }

    /** Record success on version, document and key. */
    method PublishDocument(ghost w: World, rid: Rid, q: Request) returns (ghost after: World)
      requires At(w, rid, q) && q.phase == Publishing
      modifies documents, idempotency
      ensures After(h, w, [EventOf(rid, NO_CALL)]) == after && At(after, rid, q.(phase := Done(Created(rid))))
    {
      HeldDocument(h, w, rid, q);
      var slot, fingerprint := (q.org, q.key), Fingerprint(h, q.input.value);
      SettlingWorld(h, w, rid, q, true, w.records[slot].Complete(fingerprint, rid, 201, false));
      SettlingStands(h, w, rid, q, true);
      SettleDocument(rid, true);
      CompleteKey(slot, fingerprint, rid, 201, false);
      after := After(h, w, [EventOf(rid, NO_CALL)]);
    }

    /** What a look at the final object leads to, before and after a promotion. */
    static function AfterHead(p: Phase, size: Result<Option<nat>, ()>, expected: nat): Phase {
      if p.Heading? then
        (if size.Failure? then Failing
         else if size.value.None? then Copying
         else if size.value.value != expected then Failing
         else Tidying)
      else if size.Success? && size.value.Some? then Publishing
      else Failing
    }

    method HeadFinal(ghost w: World, rid: Rid, q: Request, fate: Fate) returns (size: Result<Option<nat>, ()>, ghost after: World)
      requires At(w, rid, q) && (q.phase == Heading || q.phase == Confirming) && q.input.Success?
      ensures After(h, w, [EventOf(rid, fate)]) == after
      ensures At(after, rid, q.(phase := AfterHead(q.phase, size, |q.input.value.data|)))
    {
      size := storage.HeadObject(Final(q.org, h.content(q.input.value.data)), fate);
      QuietStep(h, w, rid, q, fate, AfterHead(q.phase, size, |q.input.value.data|));
      after := After(h, w, [EventOf(rid, fate)]);
    }

    /** After the copy: delete the temporary object, then confirm the final one. */
    method ConfirmPromotion(ghost w: World, rid: Rid, q: Request, f: StorageFates)
      returns (ok: bool, ghost after: World, ghost events: seq<Event>)
      requires At(w, rid, q) && q.phase == Unstaging
      modifies documents, idempotency, storage
      ensures At(after, rid, q.(phase := if ok then Publishing else Failing)) && after == After(h, w, events)
    {
      HeldDocument(h, w, rid, q);
      ghost var w1, w2, others;
      ok, w1 := DropTemp(w, rid, q, f.unstage, if f.unstage.ok then Confirming else Failing);
      events := [EventOf(rid, f.unstage)];
      after := w1;
      if !ok { return; }
      w2, others := Pause(w1, rid, q.(phase := Confirming));
      var found;
      HeldDocument(h, w2, rid, q.(phase := Confirming));
      found, after := HeadFinal(w2, rid, q.(phase := Confirming), f.confirm);
      ok := found.Success? && found.value.Some?;
      AfterAppend(h, w, events, others);
      AfterAppend(h, w, events + others, [EventOf(rid, f.confirm)]);
      events := events + others + [EventOf(rid, f.confirm)];
    }

    method CopyTemp(ghost w: World, rid: Rid, q: Request, fate: Fate) returns (ok: bool, ghost after: World)
      requires At(w, rid, q) && q.phase == Copying
      modifies storage
      ensures After(h, w, [EventOf(rid, fate)]) == after && At(after, rid, q.(phase := if ok then Unstaging else Failing))
    {
      HeldDocument(h, w, rid, q);
      OwnStep(h, w, rid, q, fate);
      CopyEffect(h, w, rid, fate);
      var hash := h.content(q.input.value.data);
      ok := storage.CopyToFinal(q.org, rid, hash, fate);
      CopiedObjects(w.objects, storage.objects, q.org, rid, hash, fate.Effective());
      after := After(h, w, [EventOf(rid, fate)]);
    }

    /** Copy, delete and confirm: the three calls of a promotion. */
    method PromoteTempObject(ghost w: World, rid: Rid, q: Request, f: StorageFates)
      returns (ok: bool, ghost after: World, ghost events: seq<Event>)
      requires At(w, rid, q) && q.phase == Copying
      modifies documents, idempotency, storage
      ensures At(after, rid, q.(phase := if ok then Publishing else Failing)) && after == After(h, w, events)
    {
      ghost var w2, others, more;
      ok, after := CopyTemp(w, rid, q, f.copy);
      events := [EventOf(rid, f.copy)];
      if !ok { return; }
      w2, others := Pause(after, rid, q.(phase := Unstaging));
      ok, after, more := ConfirmPromotion(w2, rid, q.(phase := Unstaging), f);
      AfterAppend(h, w, events, others);
      AfterAppend(h, w, events + others, more);
      events := events + others + more;
    }

    /** Look for the final object, and promote the temporary one or keep the one found. */
    method PromoteNewDocument(ghost w: World, rid: Rid, q: Request, f: StorageFates)
      returns (ok: bool, ghost after: World, ghost events: seq<Event>)
      requires At(w, rid, q) && q.phase == Heading
      modifies documents, idempotency, storage
      ensures At(after, rid, q.(phase := if ok then Publishing else Failing)) && after == After(h, w, events)
    {
      HeldDocument(h, w, rid, q);
      ghost var w1, w2, others, more;
      var existing;
      existing, w1 := HeadFinal(w, rid, q, f.head);
      events := [EventOf(rid, f.head)];
      var next := AfterHead(Heading, existing, |q.input.value.data|);
      if next.Failing? { return false, w1, events; }
      w2, others := Pause(w1, rid, q.(phase := next));
      if existing.value.None? {
        ok, after, more := PromoteTempObject(w2, rid, q.(phase := Copying), f);
      } else {
        ok, after, more := KeepFinal(w2, rid, q.(phase := Tidying), f.tidy);
      }
      AfterAppend(h, w, events, others);
      AfterAppend(h, w, events + others, more);
      events := events + others + more;
    }

    method KeepFinal(ghost w: World, rid: Rid, q: Request, tidy: Fate) returns (ok: bool, ghost after: World, ghost events: seq<Event>)
      requires At(w, rid, q) && q.phase == Tidying && q.input.Success?
      modifies storage
      ensures ok && At(after, rid, q.(phase := Publishing)) && after == After(h, w, events)
    {
      var deleted;
      deleted, after := DropTemp(w, rid, q, tidy, Publishing);
      ok, events := true, [EventOf(rid, tidy)];
    }

    /** From the created document to the answer. */
    method StoreNewDocument(ghost w: World, rid: Rid, q: Request, f: StorageFates)
      returns (answer: Answer, ghost after: World, ghost events: seq<Event>)
      requires At(w, rid, q) && q.phase == Heading
      modifies documents, idempotency, storage
      ensures At(after, rid, q.(phase := Done(answer))) && after == After(h, w, events)
    {
      ghost var w1, w2, first, others;
      var ok;
      ok, w1, first := PromoteNewDocument(w, rid, q, f);
      if ok {
        w2, others := Pause(w1, rid, q.(phase := Publishing));
        after := PublishDocument(w2, rid, q.(phase := Publishing));
        answer := Created(rid);
      } else {
        w2, others := Pause(w1, rid, q.(phase := Failing));
        after := MarkUploadStorageFailed(w2, rid, q.(phase := Failing));
        answer := Unavailable;
      }
      AfterAppend(h, w, first, others);
      AfterAppend(h, w, first + others, [EventOf(rid, NO_CALL)]);
      events := first + others + [EventOf(rid, NO_CALL)];
    }

    /** Look for the owner of the bytes; without one, the next phase may add a document. */
    method FindDuplicate(ghost w: World, rid: Rid, q: Request) returns (duplicate: Option<Rid>, ghost after: World)
      requires At(w, rid, q) && q.phase == Checking && q.input.Success?
      ensures After(h, w, [EventOf(rid, NO_CALL)]) == after
      ensures At(after, rid, q.(phase := if duplicate.Some? then Linking(duplicate.value) else Adding))
    {
      OwnStep(h, w, rid, q, NO_CALL);
      var hash := h.content(q.input.value.data);
      duplicate := documents.FindDocumentByTenantContentHash(q.org, hash);
      if duplicate.Some? { OwnerIs(h, w, q.org, hash, duplicate.value); }
      after := After(h, w, [EventOf(rid, NO_CALL)]);
    }

    /** Insert document and version; when another upload of the bytes was faster, the unique
        constraint refuses them and that upload's document is the duplicate. */
    method AddOrFind(ghost w: World, rid: Rid, q: Request) returns (duplicate: Option<Rid>, ghost after: World)
      requires At(w, rid, q) && q.phase == Adding && q.input.Success?
      modifies documents
      ensures After(h, w, [EventOf(rid, NO_CALL)]) == after
      ensures At(after, rid, q.(phase := if duplicate.Some? then Linking(duplicate.value) else Heading))
    {
      OwnStep(h, w, rid, q, NO_CALL);
      var hash := h.content(q.input.value.data);
      var added := documents.AddDocument(rid, NewDocument(h, q.org, q.input.value));
      duplicate := None;
      if !added {
        duplicate := documents.FindDocumentByTenantContentHash(q.org, hash);
        OwnerIs(h, w, q.org, hash, duplicate.value);
      }
      after := After(h, w, [EventOf(rid, NO_CALL)]);
    }

    /** Adding the document, or losing that race, and what follows from it. */
    method AddAndStore(ghost w: World, rid: Rid, q: Request, f: StorageFates)
      returns (answer: Answer, ghost after: World, ghost events: seq<Event>)
      requires At(w, rid, q) && q.phase == Adding && q.input.Success?
      modifies documents, idempotency, storage
      ensures At(after, rid, q.(phase := Done(answer))) && after == After(h, w, events)
    {
      ghost var w1, w2, others, more;
      var duplicate;
      duplicate, w1 := AddOrFind(w, rid, q);
      events := [EventOf(rid, NO_CALL)];
      if duplicate.Some? {
        w2, others := Pause(w1, rid, q.(phase := Linking(duplicate.value)));
        after, more := CompleteDuplicate(w2, rid, q.(phase := Linking(duplicate.value)), duplicate.value, f.link);
        answer := Duplicate(duplicate.value);
      } else {
        w2, others := Pause(w1, rid, q.(phase := Heading));
        answer, after, more := StoreNewDocument(w2, rid, q.(phase := Heading), f);
      }
      AfterAppend(h, w, events, others);
      AfterAppend(h, w, events + others, more);
      events := events + others + more;
    }

    /** Duplicate, or new document: everything after the temporary object is in place. */
    method FinishUpload(ghost w: World, rid: Rid, q: Request, f: StorageFates)
      returns (answer: Answer, ghost after: World, ghost events: seq<Event>)
      requires At(w, rid, q) && q.phase == Checking && q.input.Success?
      modifies documents, idempotency, storage
      ensures At(after, rid, q.(phase := Done(answer))) && after == After(h, w, events)
    {
      ghost var w1, w2, others, more;
      var existing;
      existing, w1 := FindDuplicate(w, rid, q);
      events := [EventOf(rid, NO_CALL)];
      if existing.Some? {
        w2, others := Pause(w1, rid, q.(phase := Linking(existing.value)));
        after, more := CompleteDuplicate(w2, rid, q.(phase := Linking(existing.value)), existing.value, f.link);
        answer := Duplicate(existing.value);
      } else {
        w2, others := Pause(w1, rid, q.(phase := Adding));
        answer, after, more := AddAndStore(w2, rid, q.(phase := Adding), f);
      }
      AfterAppend(h, w, events, others);
      AfterAppend(h, w, events + others, more);
      events := events + others + more;
    }

    /** The temporary object was refused: drop what may be there and record a retryable failure. */
    method AbandonUpload(ghost w: World, rid: Rid, q: Request, abandon: Fate) returns (ghost after: World, ghost events: seq<Event>)
      requires At(w, rid, q) && q.phase == Abandoning && q.input.Success?
      modifies documents, idempotency, storage
      ensures At(after, rid, q.(phase := Done(Unavailable))) && after == After(h, w, events)
    {
      ghost var w1, w2, others;
      var deleted;
      deleted, w1 := DropTemp(w, rid, q, abandon, GivingUp);
      w2, others := Pause(w1, rid, q.(phase := GivingUp));
      after := RecordGivingUp(w2, rid, q.(phase := GivingUp));
      events := [EventOf(rid, abandon)] + others + [EventOf(rid, NO_CALL)];
      AfterAppend(h, w, [EventOf(rid, abandon)], others);
      AfterAppend(h, w, [EventOf(rid, abandon)] + others, [EventOf(rid, NO_CALL)]);
    }

    method RecordGivingUp(ghost w: World, rid: Rid, q: Request) returns (ghost after: World)
      requires At(w, rid, q) && q.phase == GivingUp && q.input.Success?
      modifies idempotency
      ensures After(h, w, [EventOf(rid, NO_CALL)]) == after && At(after, rid, q.(phase := Done(Unavailable)))
    {
      OwnStep(h, w, rid, q, NO_CALL);
      var slot, fingerprint := (q.org, q.key), Fingerprint(h, q.input.value);
      FailKey(slot, Some(fingerprint), "object_storage_unavailable", 503, true);
      after := After(h, w, [EventOf(rid, NO_CALL)]);
    }

    /** Preparing failed: a validation error is final, anything else may be retried. */
    method RecordPrepareError(ghost w: World, rid: Rid, q: Request, error: PrepareError) returns (answer: Answer, ghost after: World)
      requires At(w, rid, q) && q.phase.Reading? && q.Prepared(q.phase.spent) == Failure(error)
      modifies idempotency
      ensures After(h, w, [EventOf(rid, NO_CALL)]) == after && At(after, rid, q.(phase := Done(answer)))
    {
      OwnStep(h, w, rid, q, NO_CALL);
      var slot := (q.org, q.key);
      if error.Invalid? {
        FailKey(slot, None, error.code, 422, false);
        answer := Rejected(error.code);
      } else {
        FailKey(slot, None, "object_storage_unavailable", 503, true);
        answer := Unavailable;
      }
      after := After(h, w, [EventOf(rid, NO_CALL)]);
    }

    /** Put the temporary object and commit the fingerprint with it. The fingerprint is flushed
        first, but others see it only once the commit follows. */
    method StageUpload(ghost w: World, rid: Rid, q: Request, u: Upload, put: Fate) returns (ok: bool, ghost after: World)
      requires At(w, rid, q) && q.phase.Reading? && q.Prepared(q.phase.spent) == Success(u)
      modifies idempotency, storage
      ensures After(h, w, [EventOf(rid, put)]) == after && At(after, rid, q.(phase := if ok then Checking else Abandoning))
      ensures q.input == Success(u)
    {
      OwnStep(h, w, rid, q, put);
      var slot := (q.org, q.key);
      ok := storage.PutTempStream(q.org, rid, u.data, put);
      after := After(h, w, [EventOf(rid, put)]);
      assert storage.objects == after.objects;
      if ok {
        var found := idempotency.FinalizeFingerprint(slot, Fingerprint(h, u));
        RecordIs(w.records, idempotency.records, slot, w.records[slot].(fingerprint := Some(Fingerprint(h, u))));
      }
    }

    /** _process_reserved_upload: prepare, stage, then finish; or record why not. */
    method ProcessReservedUpload(ghost w: World, rid: Rid, q: Request, f: StorageFates)
      returns (answer: Answer, ghost after: World, ghost events: seq<Event>)
      requires At(w, rid, q) && q.phase.Reading?
      modifies documents, idempotency, storage
      ensures At(after, rid, q.(phase := Done(answer))) && after == After(h, w, events)
    {
      var prepared := q.Prepared(q.phase.spent);
      if prepared.Failure? {
        answer, after := RecordPrepareError(w, rid, q, prepared.error);
        return answer, after, [EventOf(rid, NO_CALL)];
      }
      ghost var w1, w2, others, more;
      var ok;
      ok, w1 := StageUpload(w, rid, q, prepared.value, f.put);
      events := [EventOf(rid, f.put)];
      if ok {
        w2, others := Pause(w1, rid, q.(phase := Checking));
        answer, after, more := FinishUpload(w2, rid, q.(phase := Checking), f);
      } else {
        w2, others := Pause(w1, rid, q.(phase := Abandoning));
        after, more := AbandonUpload(w2, rid, q.(phase := Abandoning), f.abandon);
        answer := Unavailable;
      }
      AfterAppend(h, w, events, others);
      AfterAppend(h, w, events + others, more);
      events := events + others + more;
    }

    /** Reserve the key; one that another request has reserved meanwhile stays as it is. */
    method ReserveKey(ghost w: World, rid: Rid, q: Request) returns (ghost after: World)
      requires At(w, rid, q) && q.phase.Reserving?
      modifies idempotency
      ensures After(h, w, [EventOf(rid, NO_CALL)]) == after && At(after, rid, q.(phase := Reading(false)))
    {
      OwnStep(h, w, rid, q, NO_CALL);
      var ignored := idempotency.Reserve((q.org, q.key));
      after := After(h, w, [EventOf(rid, NO_CALL)]);
    }

    /** Read the record to retry; one that is no longer a retryable failure is an error. */
    method CheckRetry(ghost w: World, rid: Rid, q: Request) returns (ok: bool, ghost after: World)
      requires At(w, rid, q) && q.phase.Retrying?
      ensures After(h, w, [EventOf(rid, NO_CALL)]) == after
      ensures At(after, rid, q.(phase := if ok then Claiming(q.phase.spent) else Done(Crashed)))
    {
      OwnStep(h, w, rid, q, NO_CALL);
      ok := idempotency.MayRetry((q.org, q.key));
      after := After(h, w, [EventOf(rid, NO_CALL)]);
    }

    /** Write it back in progress, whatever it has become. */
    method ClaimRetry(ghost w: World, rid: Rid, q: Request) returns (ghost after: World)
      requires At(w, rid, q) && q.phase.Claiming?
      modifies idempotency
      ensures After(h, w, [EventOf(rid, NO_CALL)]) == after && At(after, rid, q.(phase := Reading(q.phase.spent)))
    {
      OwnStep(h, w, rid, q, NO_CALL);
      var slot := (q.org, q.key);
      idempotency.MarkInProgress(slot);
      RecordIs(w.records, idempotency.records, slot, w.records[slot].MarkInProgress());
      after := After(h, w, [EventOf(rid, NO_CALL)]);
    }

    /** Reserve a key, or take a retryable failure back in progress. */
    method TakeKey(ghost w: World, rid: Rid, q: Request) returns (taken: bool, spent: bool, ghost after: World, ghost events: seq<Event>)
      requires At(w, rid, q) && (q.phase.Reserving? || q.phase.Retrying?)
      modifies documents, idempotency, storage
      ensures At(after, rid, q.(phase := if taken then Reading(spent) else Done(Crashed))) && after == After(h, w, events)
    {
      events := [EventOf(rid, NO_CALL)];
      if q.phase.Reserving? {
        after := ReserveKey(w, rid, q);
        return true, false, after, events;
      }
      spent := q.phase.spent;
      taken, after := CheckRetry(w, rid, q);
      if !taken { return; }
      ghost var others;
      after, others := Pause(after, rid, q.(phase := Claiming(spent)));
      after := ClaimRetry(after, rid, q.(phase := Claiming(spent)));
      AfterAppend(h, w, events, others);
      AfterAppend(h, w, events + others, [EventOf(rid, NO_CALL)]);
      events := events + others + [EventOf(rid, NO_CALL)];
    }

    /** The use case, from the first look at the key to its answer. Whatever other requests do
        between any two of its commits and storage calls, it is its request's part of a run
        of the protocol, and the stores are those of that run. */
    method Call(ghost w: World, rid: Rid, q: Request, f: StorageFates)
      returns (answer: Answer, ghost after: World, ghost events: seq<Event>)
      requires At(w, rid, q) && q.phase == Looking
      modifies documents, idempotency, storage
      ensures At(after, rid, q.(phase := Done(answer))) && after == After(h, w, events)
    {
      OwnStep(h, w, rid, q, NO_CALL);
      ghost var w1 := After(h, w, [EventOf(rid, NO_CALL)]);
      var next := OnLookupNow(w, q);
      events := [EventOf(rid, NO_CALL)];
      if next.Done? { return next.answer, w1, events; }
      ghost var others, more;
      after, others := Pause(w1, rid, q.(phase := next));
      AfterAppend(h, w, events, others);
      answer, after, more := Proceed(after, rid, q.(phase := next), f);
      AfterAppend(h, w, events + others, more);
      events := events + others + more;
    }

    method Proceed(ghost w: World, rid: Rid, q: Request, f: StorageFates)
      returns (answer: Answer, ghost after: World, ghost events: seq<Event>)
      requires At(w, rid, q) && (q.phase.Reserving? || q.phase.Retrying?)
      modifies documents, idempotency, storage
      ensures At(after, rid, q.(phase := Done(answer))) && after == After(h, w, events)
    {
      ghost var others, more;
      var taken, spent;
      taken, spent, after, events := TakeKey(w, rid, q);
      if !taken { return Crashed, after, events; }
      after, others := Pause(after, rid, q.(phase := Reading(spent)));
      AfterAppend(h, w, events, others);
      answer, after, more := ProcessReservedUpload(after, rid, q.(phase := Reading(spent)), f);
      AfterAppend(h, w, events + others, more);
      events := events + others + more;
    }

    /** _handle_existing_record, or the decision to reserve. */
    method OnLookupNow(ghost w: World, q: Request) returns (next: Phase)
      requires Mirrors(w)
      ensures next == OnLookup(h, w, q)
    {
      var slot := (q.org, q.key);
      if slot !in idempotency.records { return Reserving; }
      var r := idempotency.records[slot];
      if r.status == InProgress { return Done(AlreadyInProgress); }
      if r.status == Completed {
        if !SameRequest(h, r, q.input) { return Done(Mismatch(h, r, q.input)); }
        if r.document.None? { return Done(Conflict); }
        if r.document.value !in documents.rows { return Done(Conflict); }
        return Done(Replayed(r.document.value, r.duplicate, if r.responseStatus.Some? then r.responseStatus.value else 200));
      }
      if r.fingerprint.Some? && !SameRequest(h, r, q.input) { return Done(Mismatch(h, r, q.input)); }
      if !r.retryable {
        return Done(Rejected(if r.errorCode.Some? then r.errorCode.value else "validation_error"));
      }
      next := Retrying(r.fingerprint.Some?);
    }
  }
}
