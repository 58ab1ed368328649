/** Document uploads as steps between database commits and object-storage calls, over
    three stores: documents, idempotency records and objects
    (application/documents/service.py, infrastructure/documents/repository.py,
    infrastructure/storage/s3.py). */
module UploadProtocol {
  import opened Common
  import opened UploadReader
  import N = UploadNames

  type Org = Uuid

  /** An upload's request; its temporary object, document and version ids are drawn fresh
      for it, so they are identified with it. */
  type Rid = Uuid

  /** What preparing an upload yields when every check passes. */
  datatype Upload = Upload(data: Bytes, filename: string, mediaType: string)

  /** Why preparing failed: a validation error with its code, or any other exception, such as
      an archive feature the DOCX reader does not support. */
  datatype PrepareError = Invalid(code: string) | Unexpected

  type Input = Result<Upload, PrepareError>

  /** SHA-256 over bytes and over text. */
  datatype Digests = Digests(content: Bytes -> string, text: string -> string)

  function Fingerprint(h: Digests, u: Upload): string {
    h.text(N.Material(N.Request(h.content(u.data), u.filename, u.mediaType, |u.data|)))
  }

  // ---------- the stores ----------

  datatype Status = InProgress | Completed | Failed

  datatype Record = Record(
    status: Status, fingerprint: Option<string>, document: Option<Rid>, responseStatus: Option<int>,
    duplicate: bool, errorCode: Option<string>, retryable: bool)
  {
    /** A failed record has no outcome, so taking it back does not write that column. */
    function MarkInProgress(): Record {
      this.(status := InProgress, responseStatus := None, errorCode := None, retryable := false)
    }

    function Complete(fingerprint: string, document: Rid, responseStatus: int, duplicate: bool): Record {
      Record(Completed, Some(fingerprint), Some(document), Some(responseStatus), duplicate, None, false)
    }

    function Fail(fingerprint: Option<string>, code: string, responseStatus: int, retryable: bool): Record {
      Record(Status.Failed, fingerprint, document, Some(responseStatus), false, Some(code), retryable)
    }
  }

  const RESERVED := Record(InProgress, None, None, None, false, None, false)

  datatype DocumentStatus = Registered | Stored | FailedDocument | Archived

  datatype StorageState = PendingVersion | StoredVersion | FailedVersion

  /** A document row and its one version row. */
  datatype Document = Document(org: Org, status: DocumentStatus, lockVersion: nat, hash: string, byteSize: nat, storage: StorageState) {
    /** The version row is assigned; the document row follows only if it is still at lock 1. */
    function Settle(stored: bool): Document {
      var version := this.(storage := if stored then StoredVersion else FailedVersion);
      if lockVersion == 1
      then version.(status := if stored then Stored else FailedDocument, lockVersion := 2)
      else version
    }

    function Archive(): Document {
      if status == Archived then this else this.(status := Archived, lockVersion := lockVersion + 1)
    }
  }

  function NewDocument(h: Digests, org: Org, u: Upload): Document {
    Document(org, Registered, 1, h.content(u.data), |u.data|, PendingVersion)
  }

  datatype ObjectKey = Temp(org: Org, upload: Rid) | Final(org: Org, hash: string)

  // ---------- requests ----------

  datatype Answer =
    | Created(document: Rid)
    | Duplicate(document: Rid)
    | Replayed(document: Rid, duplicate: bool, responseStatus: int)
    | Rejected(code: string)
    | Unavailable
    | AlreadyInProgress
    | Conflict
    | Crashed
    | Stopped

  /** Where a request stands between two commits or storage calls. */
  datatype Phase =
    | Looking
    | Reserving
    | Retrying(spent: bool)
    | Claiming(spent: bool)
    | Reading(spent: bool)
    | Abandoning
    | GivingUp
    | Checking
    | Adding
    | Linking(document: Rid)
    | Completing(document: Rid)
    | Heading
    | Copying
    | Unstaging
    | Confirming
    | Tidying
    | Publishing
    | Failing
    | Done(answer: Answer)

  datatype Request = Request(org: Org, key: string, input: Input, phase: Phase) {
    /** The upload stream is read once; a second reading finds it empty. */
    function Prepared(spent: bool): Input {
      if spent && input.Success? then Failure(Invalid("empty_file")) else input
    }
  }

  datatype World = World(
    requests: map<Rid, Request>, records: map<(Org, string), Record>, documents: map<Rid, Document>, objects: map<ObjectKey, Bytes>)

  predicate OwnsHash(d: Document, org: Org, hash: string) {
    d.org == org && d.hash == hash
  }

  predicate HasOwner(documents: map<Rid, Document>, org: Org, hash: string) {
    exists d :: d in documents && OwnsHash(documents[d], org, hash)
  }

  /** find_document_by_tenant_content_hash. */
  ghost function Owner(documents: map<Rid, Document>, org: Org, hash: string): (d: Rid)
    requires HasOwner(documents, org, hash)
    ensures d in documents && OwnsHash(documents[d], org, hash)
  {
    var d :| d in documents && OwnsHash(documents[d], org, hash);
    d
  }

  // ---------- one step ----------

  datatype ObjectEffect = KeepObjects | PutTemp(data: Bytes) | DropTemp | CopyFinal(hash: string)

  datatype DocumentEffect = KeepDocuments | AddDocument(document: Document) | SettleDocument(stored: bool)

  datatype Effect = Effect(phase: Phase, objects: ObjectEffect, documents: DocumentEffect, record: Option<Record>)

  function Move(phase: Phase): Effect {
    Effect(phase, KeepObjects, KeepDocuments, None)
  }

  function Call(phase: Phase, happened: bool, objects: ObjectEffect): Effect {
    Effect(phase, if happened then objects else KeepObjects, KeepDocuments, None)
  }

  predicate SameRequest(h: Digests, r: Record, input: Input) {
    input.Success? && r.fingerprint == Some(Fingerprint(h, input.value))
  }

  /** _assert_replay_fingerprint: a validation error or another fingerprint is a conflict, any
      other exception passes through. */
  function Mismatch(h: Digests, r: Record, input: Input): Answer
    requires !SameRequest(h, r, input)
  {
    if input == Failure(Unexpected) then Crashed else Conflict
  }

  /** The first look at the key: __call__ and _handle_existing_record. */
  function OnLookup(h: Digests, w: World, q: Request): Phase {
    if (q.org, q.key) !in w.records then Reserving
    else
      var r := w.records[(q.org, q.key)];
      match r.status
      case InProgress => Done(AlreadyInProgress)
      case Completed =>
        if !SameRequest(h, r, q.input) then Done(Mismatch(h, r, q.input))
        else if r.document.None? || r.document.value !in w.documents then Done(Conflict)
        else Done(Replayed(r.document.value, r.duplicate, if r.responseStatus.Some? then r.responseStatus.value else 200))
      case Failed =>
        if r.fingerprint.Some? && !SameRequest(h, r, q.input) then Done(Mismatch(h, r, q.input))
        else if !r.retryable then Done(Rejected(if r.errorCode.Some? then r.errorCode.value else "validation_error"))
        else Retrying(r.fingerprint.Some?)
  }

  /** What a request does next. `happened` and `ok` are the fate of its storage call: whether
      it took effect, and whether it reported success (which implies that it did). */
  ghost function Next(h: Digests, w: World, rid: Rid, happened: bool, ok: bool): Effect
    requires rid in w.requests
  {
    var q := w.requests[rid];
    var slot := (q.org, q.key);
    var effective := happened || ok;
    var record := if slot in w.records then w.records[slot] else RESERVED;
    match q.phase
    case Looking => Move(OnLookup(h, w, q))
    case Reserving => Effect(Reading(false), KeepObjects, KeepDocuments, if slot in w.records then None else Some(RESERVED))
    case Retrying(spent) => Move(if record.status == Status.Failed && record.retryable then Claiming(spent) else Done(Crashed))
    // the row was read without a lock, so this is written whatever the record has become
    case Claiming(spent) => Effect(Reading(spent), KeepObjects, KeepDocuments, Some(record.MarkInProgress()))
    case Reading(spent) =>
      (match q.Prepared(spent)
       case Failure(Invalid(code)) => Effect(Done(Rejected(code)), KeepObjects, KeepDocuments, Some(record.Fail(None, code, 422, false)))
       case Failure(Unexpected) =>
         // the best-effort delete of a temporary object that was never written has no effect
         Effect(Done(Unavailable), KeepObjects, KeepDocuments, Some(record.Fail(None, "object_storage_unavailable", 503, true)))
       case Success(u) =>
         if ok then Effect(Checking, PutTemp(u.data), KeepDocuments, Some(record.(fingerprint := Some(Fingerprint(h, u)))))
         else Call(Abandoning, effective, PutTemp(u.data)))
    case Done(_) => Move(q.phase)
    case _ => if q.input.Failure? then Move(q.phase) else NextPrepared(h, w, rid, q, q.input.value, record, effective, ok)
  }

  ghost function NextPrepared(h: Digests, w: World, rid: Rid, q: Request, u: Upload, record: Record, effective: bool, ok: bool): Effect {
    var hash := h.content(u.data);
    var fingerprint := Fingerprint(h, u);
    match q.phase
    case Abandoning => Call(GivingUp, effective, DropTemp)
    case GivingUp =>
      Effect(Done(Unavailable), KeepObjects, KeepDocuments, Some(record.Fail(Some(fingerprint), "object_storage_unavailable", 503, true)))
    case Checking => if HasOwner(w.documents, q.org, hash) then Move(Linking(Owner(w.documents, q.org, hash))) else Move(Adding)
    case Adding =>
      if HasOwner(w.documents, q.org, hash) then Move(Linking(Owner(w.documents, q.org, hash)))
      else Effect(Heading, KeepObjects, AddDocument(NewDocument(h, q.org, u)), None)
    case Linking(d) => Call(Completing(d), effective, DropTemp)
    case Completing(d) =>
      Effect(Done(Duplicate(d)), KeepObjects, KeepDocuments, Some(record.Complete(fingerprint, d, 200, true)))
    case Heading =>
      if !ok then Move(Failing)
      else if Final(q.org, hash) !in w.objects then Move(Copying)
      else if |w.objects[Final(q.org, hash)]| != |u.data| then Move(Failing)
      else Move(Tidying)
    case Copying =>
      if Temp(q.org, rid) !in w.objects then Move(Failing)
      else Call(if ok then Unstaging else Failing, effective, CopyFinal(hash))
    case Unstaging => Call(if ok then Confirming else Failing, effective, DropTemp)
    case Confirming => Move(if ok && Final(q.org, hash) in w.objects then Publishing else Failing)
    case Tidying => Call(Publishing, effective, DropTemp)
    case Publishing =>
      Effect(Done(Created(rid)), KeepObjects, SettleDocument(true), Some(record.Complete(fingerprint, rid, 201, false)))
    case Failing =>
      Effect(Done(Unavailable), KeepObjects, SettleDocument(false),
             Some(record.Fail(Some(fingerprint), "object_storage_unavailable", 503, true)))
    case _ => Move(q.phase)
  }

  function ApplyObjects(objects: map<ObjectKey, Bytes>, org: Org, rid: Rid, e: ObjectEffect): map<ObjectKey, Bytes> {
    match e
    case KeepObjects => objects
    case PutTemp(data) => objects[Temp(org, rid) := data]
    case DropTemp => objects - {Temp(org, rid)}
    case CopyFinal(hash) =>
      if Temp(org, rid) in objects then objects[Final(org, hash) := objects[Temp(org, rid)]] else objects
  }

  function ApplyDocuments(documents: map<Rid, Document>, rid: Rid, e: DocumentEffect): map<Rid, Document> {
    match e
    case KeepDocuments => documents
    case AddDocument(d) => documents[rid := d]
    case SettleDocument(stored) => if rid in documents then documents[rid := documents[rid].Settle(stored)] else documents
  }

  function Apply(w: World, rid: Rid, e: Effect): World
    requires rid in w.requests
  {
    var q := w.requests[rid];
    World(w.requests[rid := q.(phase := e.phase)],
          if e.record.Some? then w.records[(q.org, q.key) := e.record.value] else w.records,
          ApplyDocuments(w.documents, rid, e.documents),
          ApplyObjects(w.objects, q.org, rid, e.objects))
  }

  // ---------- runs ----------

  datatype Event =
    | Submit(rid: Rid, org: Org, key: string, input: Input)
    | Advance(rid: Rid, happened: bool, ok: bool)
    | Stop(rid: Rid)
    | ArchiveDocument(document: Rid)

  predicate Enabled(w: World, e: Event) {
    match e
    case Submit(rid, _, _, _) => rid !in w.requests && rid !in w.documents
    case Advance(rid, _, _) => rid in w.requests
    case Stop(rid) => rid in w.requests && !w.requests[rid].phase.Done?
    case ArchiveDocument(d) => d in w.documents
  }

  ghost function Step(h: Digests, w: World, e: Event): World {
    if !Enabled(w, e) then w
    else
      match e
      case Submit(rid, org, key, input) => w.(requests := w.requests[rid := Request(org, key, input, Looking)])
      case Advance(rid, happened, ok) => Apply(w, rid, Next(h, w, rid, happened, ok))
      case Stop(rid) => w.(requests := w.requests[rid := w.requests[rid].(phase := Done(Stopped))])
      case ArchiveDocument(d) => w.(documents := w.documents[d := w.documents[d].Archive()])
  }

  const EMPTY := World(map[], map[], map[], map[])

  /** The world after a run; an event that is not enabled does nothing. */
  ghost function After(h: Digests, start: World, events: seq<Event>): World {
    if events == [] then start else Step(h, After(h, start, events[..|events| - 1]), events[|events| - 1])
  }

  /** The states reached from empty stores by any interleaving of any events. */
  ghost predicate Reachable(h: Digests, w: World) {
    exists events :: w == After(h, EMPTY, events)
  }
}
