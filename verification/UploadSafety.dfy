/** What every reachable upload state keeps, with storage failing at any call and requests
    stopping anywhere: stored means stored, and content is registered once. */
module UploadSafety {
  import opened Common
  import opened UploadReader
  import opened UploadProtocol

  predicate HoldsDocument(p: Phase) {
    p.Heading? || p.Copying? || p.Unstaging? || p.Confirming? || p.Tidying? || p.Publishing? || p.Failing?
  }

  /** Phases in which the final object is known to be in place. */
  predicate FinalKnown(p: Phase) {
    p.Unstaging? || p.Confirming? || p.Tidying? || p.Publishing?
  }

  predicate AfterPreparing(p: Phase) {
    p.Abandoning? || p.GivingUp? || p.Checking? || p.Adding? || p.Linking? || p.Completing? || HoldsDocument(p)
  }

  predicate FinalReady(objects: map<ObjectKey, Bytes>, org: Org, hash: string, size: nat) {
    Final(org, hash) in objects && |objects[Final(org, hash)]| == size
  }

  /** The document a request links to, or has answered with, holds its bytes. */
  predicate Names(h: Digests, documents: map<Rid, Document>, q: Request, d: Rid) {
    q.input.Success? && d in documents && OwnsHash(documents[d], q.org, h.content(q.input.value.data))
  }

  predicate PhaseFits(h: Digests, documents: map<Rid, Document>, objects: map<ObjectKey, Bytes>, rid: Rid, q: Request) {
    && (AfterPreparing(q.phase) ==> q.input.Success?)
    && (HoldsDocument(q.phase) ==> Names(h, documents, q, rid) && documents[rid].storage == PendingVersion)
    && (rid in documents ==> HoldsDocument(q.phase) || q.phase.Done?)
    && (FinalKnown(q.phase) ==> FinalReady(objects, q.org, h.content(q.input.value.data), |q.input.value.data|))
    && (q.phase.Linking? || q.phase.Completing? ==> Names(h, documents, q, q.phase.document))
    && (q.phase.Done? ==> AnswerFits(h, documents, rid, q, q.phase.answer))
  }

  predicate AnswerFits(h: Digests, documents: map<Rid, Document>, rid: Rid, q: Request, answer: Answer) {
    && (answer.Duplicate? ==> Names(h, documents, q, answer.document) && rid !in documents)
    && (answer.Created? ==> answer.document == rid && Names(h, documents, q, rid))
  }

  ghost predicate RequestsFit(h: Digests, w: World) {
    forall rid :: rid in w.requests ==> PhaseFits(h, w.documents, w.objects, rid, w.requests[rid])
  }

  predicate Agrees(d: Document) {
    || (d.status == Archived && d.lockVersion >= 2)
    || (d.status == Registered && d.storage == PendingVersion && d.lockVersion == 1)
    || (d.status == Stored && d.storage == StoredVersion && d.lockVersion == 2)
    || (d.status == FailedDocument && d.storage == FailedVersion && d.lockVersion == 2)
  }

  predicate DocumentFits(h: Digests, w: World, id: Rid, d: Document) {
    && id in w.requests && w.requests[id].input.Success?
    && d.org == w.requests[id].org
    && d.hash == h.content(w.requests[id].input.value.data) && d.byteSize == |w.requests[id].input.value.data|
    && Agrees(d)
    && (d.storage == StoredVersion ==> FinalReady(w.objects, d.org, d.hash, d.byteSize))
  }

  ghost predicate DocumentsFit(h: Digests, w: World) {
    forall d :: d in w.documents ==> DocumentFits(h, w, d, w.documents[d])
  }

  ghost predicate ContentUnique(documents: map<Rid, Document>) {
    forall a, b :: a in documents && b in documents && documents[a].org == documents[b].org && documents[a].hash == documents[b].hash
      ==> a == b
  }

  /** Temporary objects hold their request's bytes; final objects hold bytes of their hash. */
  predicate ObjectFits(h: Digests, w: World, k: ObjectKey, data: Bytes) {
    match k
    case Temp(org, rid) =>
      rid in w.requests && w.requests[rid].org == org && w.requests[rid].input.Success? && w.requests[rid].input.value.data == data
    case Final(_, hash) => h.content(data) == hash
  }

  ghost predicate ObjectsFit(h: Digests, w: World) {
    forall k :: k in w.objects ==> ObjectFits(h, w, k, w.objects[k])
  }

  ghost predicate Inv(h: Digests, w: World) {
    RequestsFit(h, w) && DocumentsFit(h, w) && ContentUnique(w.documents) && ObjectsFit(h, w)
  }

  // ---------- what a step may do ----------

  /** The effects a step can have, in terms of the phase it leaves. */
  predicate Legal(h: Digests, w: World, rid: Rid, e: Effect)
    requires rid in w.requests
  {
    var q := w.requests[rid];
    && (e.objects.PutTemp? ==> q.input.Success? && e.objects.data == q.input.value.data)
    && (e.objects.CopyFinal? ==> HoldsDocument(q.phase) && q.input.Success? && e.objects.hash == h.content(q.input.value.data))
    && (e.documents.AddDocument? ==>
          && rid !in w.documents && q.input.Success?
          && e.documents.document == NewDocument(h, q.org, q.input.value)
          && !HasOwner(w.documents, q.org, h.content(q.input.value.data)))
    && (e.documents.SettleDocument? ==>
          && HoldsDocument(q.phase) && e.phase.Done? && e.objects.KeepObjects?
          && (e.documents.stored ==> FinalKnown(q.phase)))
  }

  lemma NextIsLegal(h: Digests, w: World, rid: Rid, happened: bool, ok: bool)
    requires rid in w.requests && PhaseFits(h, w.documents, w.objects, rid, w.requests[rid])
    ensures Legal(h, w, rid, Next(h, w, rid, happened, ok))
  {
  }

  /** The request still fits its new phase, after its own effects. */
  ghost predicate FitsAfter(h: Digests, w: World, rid: Rid, e: Effect)
    requires rid in w.requests
  {
    var q := w.requests[rid];
    PhaseFits(h, ApplyDocuments(w.documents, rid, e.documents), ApplyObjects(w.objects, q.org, rid, e.objects), rid, q.(phase := e.phase))
  }

  ghost predicate OwnTemp(w: World, rid: Rid)
    requires rid in w.requests
  {
    var q := w.requests[rid];
    q.input.Success? && Temp(q.org, rid) in w.objects ==> w.objects[Temp(q.org, rid)] == q.input.value.data
  }

  lemma EarlyFits(h: Digests, w: World, rid: Rid, happened: bool, ok: bool)
    requires rid in w.requests && PhaseFits(h, w.documents, w.objects, rid, w.requests[rid])
    requires !AfterPreparing(w.requests[rid].phase)
    ensures FitsAfter(h, w, rid, Next(h, w, rid, happened, ok))
  {
    var e := Next(h, w, rid, happened, ok);
    if w.requests[rid].phase.Done? {
      assert e == Move(w.requests[rid].phase);
    } else {
      assert e.documents == KeepDocuments && (!AfterPreparing(e.phase) || e.phase.Checking? || e.phase.Abandoning?);
      assert e.phase.Done? ==> !e.phase.answer.Created? && !e.phase.answer.Duplicate?;
    }
  }

  lemma MiddleFits(h: Digests, w: World, rid: Rid, happened: bool, ok: bool)
    requires rid in w.requests && PhaseFits(h, w.documents, w.objects, rid, w.requests[rid])
    requires AfterPreparing(w.requests[rid].phase) && !HoldsDocument(w.requests[rid].phase)
    ensures FitsAfter(h, w, rid, Next(h, w, rid, happened, ok))
  {
  }

  lemma LateFits(h: Digests, w: World, rid: Rid, happened: bool, ok: bool)
    requires rid in w.requests && PhaseFits(h, w.documents, w.objects, rid, w.requests[rid])
    requires HoldsDocument(w.requests[rid].phase) && OwnTemp(w, rid)
    ensures FitsAfter(h, w, rid, Next(h, w, rid, happened, ok))
  {
  }

  // ---------- every step keeps the invariant ----------

  lemma OthersFit(h: Digests, w: World, rid: Rid, e: Effect, other: Rid, q2: Request)
    requires rid in w.requests && Legal(h, w, rid, e) && ContentUnique(w.documents) && other != rid
    requires PhaseFits(h, w.documents, w.objects, rid, w.requests[rid])
    requires PhaseFits(h, w.documents, w.objects, other, q2)
    ensures PhaseFits(h, ApplyDocuments(w.documents, rid, e.documents), ApplyObjects(w.objects, w.requests[rid].org, rid, e.objects), other, q2)
  {
    if e.objects.CopyFinal? && FinalKnown(q2.phase) {
      assert w.documents[other].hash == h.content(q2.input.value.data);
      assert Final(q2.org, w.documents[other].hash) != Final(w.requests[rid].org, e.objects.hash);
    }
  }

  lemma RowKept(h: Digests, w: World, rid: Rid, e: Effect, d: Rid)
    requires rid in w.requests && Legal(h, w, rid, e) && ContentUnique(w.documents)
    requires PhaseFits(h, w.documents, w.objects, rid, w.requests[rid])
    requires d in w.documents && DocumentFits(h, w, d, w.documents[d])
    ensures DocumentFits(h, Apply(w, rid, e), d, Apply(w, rid, e).documents[d])
  {
    var before, after := w.documents[d], Apply(w, rid, e).documents[d];
    assert after.org == before.org && after.hash == before.hash && after.byteSize == before.byteSize;
    if e.objects.CopyFinal? && d != rid {
      assert Final(before.org, before.hash) != Final(w.requests[rid].org, e.objects.hash);
    }
  }

  lemma RowsKept(h: Digests, w: World, rid: Rid, e: Effect)
    requires rid in w.requests && Legal(h, w, rid, e) && Inv(h, w)
    ensures DocumentsFit(h, Apply(w, rid, e))
  {
    var after := Apply(w, rid, e);
    assert PhaseFits(h, w.documents, w.objects, rid, w.requests[rid]);
    forall d | d in after.documents ensures DocumentFits(h, after, d, after.documents[d]) {
      if d in w.documents { RowKept(h, w, rid, e, d); }
    }
  }

  lemma ContentStaysUnique(h: Digests, w: World, rid: Rid, e: Effect)
    requires rid in w.requests && Legal(h, w, rid, e) && ContentUnique(w.documents)
    ensures ContentUnique(ApplyDocuments(w.documents, rid, e.documents))
  {
    if e.documents.AddDocument? {
      forall d | d in w.documents && w.documents[d].org == e.documents.document.org
        ensures w.documents[d].hash != e.documents.document.hash
      {
        assert !OwnsHash(w.documents[d], w.requests[rid].org, e.documents.document.hash);
      }
    }
  }

  lemma ObjectsKept(h: Digests, w: World, rid: Rid, e: Effect)
    requires rid in w.requests && Legal(h, w, rid, e) && ObjectsFit(h, w)
    ensures ObjectsFit(h, Apply(w, rid, e))
  {
    var q := w.requests[rid];
    var after := Apply(w, rid, e);
    forall k | k in after.objects ensures ObjectFits(h, after, k, after.objects[k]) {
      if k in w.objects { assert ObjectFits(h, w, k, w.objects[k]); }
      if Temp(q.org, rid) in w.objects { assert ObjectFits(h, w, Temp(q.org, rid), w.objects[Temp(q.org, rid)]); }
    }
  }

  lemma OwnRequestFits(h: Digests, w: World, rid: Rid, happened: bool, ok: bool)
    requires rid in w.requests && PhaseFits(h, w.documents, w.objects, rid, w.requests[rid]) && ObjectsFit(h, w)
    ensures FitsAfter(h, w, rid, Next(h, w, rid, happened, ok))
  {
    var q := w.requests[rid];
    if Temp(q.org, rid) in w.objects { assert ObjectFits(h, w, Temp(q.org, rid), w.objects[Temp(q.org, rid)]); }
    if HoldsDocument(q.phase) { LateFits(h, w, rid, happened, ok); }
    else if AfterPreparing(q.phase) { MiddleFits(h, w, rid, happened, ok); }
    else { EarlyFits(h, w, rid, happened, ok); }
  }

  lemma AdvanceKeepsInv(h: Digests, w: World, rid: Rid, happened: bool, ok: bool)
    requires Inv(h, w) && rid in w.requests
    ensures Inv(h, Apply(w, rid, Next(h, w, rid, happened, ok)))
  {
    var e := Next(h, w, rid, happened, ok);
    var after := Apply(w, rid, e);
    assert PhaseFits(h, w.documents, w.objects, rid, w.requests[rid]);
    NextIsLegal(h, w, rid, happened, ok);
    OwnRequestFits(h, w, rid, happened, ok);
    RequestsStayFit(h, w, rid, e);
    RowsKept(h, w, rid, e);
    ContentStaysUnique(h, w, rid, e);
    ObjectsKept(h, w, rid, e);
  }

  lemma RequestsStayFit(h: Digests, w: World, rid: Rid, e: Effect)
    requires rid in w.requests && Legal(h, w, rid, e) && FitsAfter(h, w, rid, e)
    requires RequestsFit(h, w) && ContentUnique(w.documents)
    ensures RequestsFit(h, Apply(w, rid, e))
  {
    var after := Apply(w, rid, e);
    assert PhaseFits(h, w.documents, w.objects, rid, w.requests[rid]);
    forall other | other in after.requests
      ensures PhaseFits(h, after.documents, after.objects, other, after.requests[other])
    {
      if other != rid {
        assert PhaseFits(h, w.documents, w.objects, other, w.requests[other]);
        OthersFit(h, w, rid, e, other, w.requests[other]);
      }
    }
  }

  lemma SubmitKeepsInv(h: Digests, w: World, rid: Rid, q: Request)
    requires Inv(h, w) && rid !in w.requests && rid !in w.documents && q.phase == Looking
    ensures Inv(h, w.(requests := w.requests[rid := q]))
  {
    var after := w.(requests := w.requests[rid := q]);
    forall d | d in after.documents ensures DocumentFits(h, after, d, after.documents[d]) {
      assert DocumentFits(h, w, d, w.documents[d]);
    }
    forall k | k in after.objects ensures ObjectFits(h, after, k, after.objects[k]) {
      assert ObjectFits(h, w, k, w.objects[k]);
    }
    forall other | other in after.requests ensures PhaseFits(h, after.documents, after.objects, other, after.requests[other]) {
      if other != rid { assert PhaseFits(h, w.documents, w.objects, other, w.requests[other]); }
    }
  }

  lemma StopKeepsInv(h: Digests, w: World, rid: Rid)
    requires Inv(h, w) && rid in w.requests
    ensures Inv(h, w.(requests := w.requests[rid := w.requests[rid].(phase := Done(Stopped))]))
  {
    var after := w.(requests := w.requests[rid := w.requests[rid].(phase := Done(Stopped))]);
    forall d | d in after.documents ensures DocumentFits(h, after, d, after.documents[d]) {
      assert DocumentFits(h, w, d, w.documents[d]);
    }
    forall k | k in after.objects ensures ObjectFits(h, after, k, after.objects[k]) {
      assert ObjectFits(h, w, k, w.objects[k]);
    }
    forall other | other in after.requests ensures PhaseFits(h, after.documents, after.objects, other, after.requests[other]) {
      assert PhaseFits(h, w.documents, w.objects, other, w.requests[other]);
    }
  }

  lemma ArchiveKeepsInv(h: Digests, w: World, d: Rid)
    requires Inv(h, w) && d in w.documents
    ensures Inv(h, w.(documents := w.documents[d := w.documents[d].Archive()]))
  {
    var after := w.(documents := w.documents[d := w.documents[d].Archive()]);
    forall x | x in after.documents ensures DocumentFits(h, after, x, after.documents[x]) {
      assert DocumentFits(h, w, x, w.documents[x]);
    }
    forall k | k in after.objects ensures ObjectFits(h, after, k, after.objects[k]) {
      assert ObjectFits(h, w, k, w.objects[k]);
    }
    forall other | other in after.requests ensures PhaseFits(h, after.documents, after.objects, other, after.requests[other]) {
      assert PhaseFits(h, w.documents, w.objects, other, w.requests[other]);
    }
  }

  lemma StepKeepsInv(h: Digests, w: World, e: Event)
    requires Inv(h, w)
    ensures Inv(h, Step(h, w, e))
  {
    if Enabled(w, e) {
      match e {
        case Submit(rid, org, key, input) => SubmitKeepsInv(h, w, rid, Request(org, key, input, Looking));
        case Advance(rid, happened, ok) => AdvanceKeepsInv(h, w, rid, happened, ok);
        case Stop(rid) => StopKeepsInv(h, w, rid);
        case ArchiveDocument(d) => ArchiveKeepsInv(h, w, d);
      }
    }
  }

  lemma {:induction false} RunKeepsInv(h: Digests, start: World, events: seq<Event>)
    requires Inv(h, start)
    ensures Inv(h, After(h, start, events))
  {
    if events != [] {
      RunKeepsInv(h, start, events[..|events| - 1]);
      StepKeepsInv(h, After(h, start, events[..|events| - 1]), events[|events| - 1]);
    }
  }

  lemma ReachableInv(h: Digests, w: World)
    requires Reachable(h, w)
    ensures Inv(h, w)
  {
    var events :| w == After(h, EMPTY, events);
    RunKeepsInv(h, EMPTY, events);
  }

  // ---------- the main results ----------

  ghost predicate Injective(h: Digests) {
    forall a, b :: h.content(a) == h.content(b) ==> a == b
  }

  /** In every reachable state, a version marked stored has exactly the uploaded bytes under
      its final key, and a document that is not archived agrees with its version. */
  lemma StoredMeansStored(h: Digests, w: World, d: Rid)
    requires Reachable(h, w) && Injective(h) && d in w.documents
    ensures var doc := w.documents[d];
      && d in w.requests && w.requests[d].input.Success?
      && doc.byteSize == |w.requests[d].input.value.data|
      && (doc.storage == StoredVersion ==>
            Final(doc.org, doc.hash) in w.objects && w.objects[Final(doc.org, doc.hash)] == w.requests[d].input.value.data)
      && (doc.status != Archived ==>
            && (doc.status == Registered <==> doc.storage == PendingVersion)
            && (doc.status == Stored <==> doc.storage == StoredVersion)
            && (doc.status == FailedDocument <==> doc.storage == FailedVersion))
  {
    ReachableInv(h, w);
    var doc := w.documents[d];
    assert DocumentFits(h, w, d, doc);
    if doc.storage == StoredVersion {
      assert ObjectFits(h, w, Final(doc.org, doc.hash), w.objects[Final(doc.org, doc.hash)]);
    }
  }

  predicate CompletedWith(q: Request, d: Rid) {
    q.phase == Done(Created(d)) || q.phase == Done(Duplicate(d))
  }

  predicate SameContent(a: Request, b: Request) {
    a.org == b.org && a.input.Success? && b.input.Success? && a.input.value.data == b.input.value.data
  }

  /** However uploads interleave, a tenant registers the same bytes once: all uploads of them
      that complete name one document, and only its own request reports having created it. */
  lemma ContentIsRegisteredOnce(h: Digests, w: World, a: Rid, b: Rid, da: Rid, db: Rid)
    requires Reachable(h, w) && a in w.requests && b in w.requests && SameContent(w.requests[a], w.requests[b])
    requires CompletedWith(w.requests[a], da) && CompletedWith(w.requests[b], db)
    ensures da == db && da in w.documents
    ensures w.requests[a].phase == Done(Created(da)) <==> a == da
    ensures forall d :: d in w.documents && OwnsHash(w.documents[d], w.requests[a].org, h.content(w.requests[a].input.value.data)) ==> d == da
  {
    ReachableInv(h, w);
    assert PhaseFits(h, w.documents, w.objects, a, w.requests[a]);
    assert PhaseFits(h, w.documents, w.objects, b, w.requests[b]);
  }
}
