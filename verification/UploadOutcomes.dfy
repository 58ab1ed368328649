/** When outcomes are not final: races for one key, late writers and retries
    (application/documents/service.py). */
module UploadOutcomes {
  import opened Common
  import opened UploadReader
  import opened UploadProtocol
  import opened UploadSafety
  import opened UploadReplay

  // ---------- why the reservation has to be atomic ----------

  lemma StepIsReachable(h: Digests, w: World, e: Event)
    requires Reachable(h, w)
    ensures Reachable(h, Step(h, w, e))
  {
    var events :| w == After(h, EMPTY, events);
    assert (events + [e])[..|events + [e]| - 1] == events;
    assert Step(h, w, e) == After(h, EMPTY, events + [e]);
  }

  /** Two requests of the same key that have both looked it up find it free and both proceed. */
  lemma BothProceed(h: Digests, w: World, slot: Slot, a: Rid, b: Rid) returns (after: World)
    requires Reachable(h, w) && a != b && a in w.requests && b in w.requests && slot !in w.records
    requires w.requests[a].phase == Looking && w.requests[b].phase == Looking
    requires SlotOf(w.requests[a]) == slot == SlotOf(w.requests[b])
    ensures Reachable(h, after) && after.requests.Keys == w.requests.Keys
    ensures after.requests[a] == w.requests[a].(phase := Reading(false)) && after.requests[b] == w.requests[b].(phase := Reading(false))
    ensures slot in after.records && after.records[slot] == RESERVED
  {
    var w1 := Step(h, w, Advance(a, false, false));
    StepIsReachable(h, w, Advance(a, false, false));
    assert w1.requests[a].phase == Reserving && w1.records == w.records;
    var w2 := Step(h, w1, Advance(b, false, false));
    StepIsReachable(h, w1, Advance(b, false, false));
    assert w2.requests[b].phase == Reserving && w2.requests[a].phase == Reserving;
    var w3 := Step(h, w2, Advance(a, false, false));
    StepIsReachable(h, w2, Advance(a, false, false));
    assert w3.records[slot] == RESERVED && w3.requests[b].phase == Reserving;
    after := Step(h, w3, Advance(b, false, false));
    StepIsReachable(h, w3, Advance(b, false, false));
  }

  /** Without an atomic lookup and reservation outcomes are not final: of two overlapping
      first uses of a key the later failure replaces the earlier one. */
  lemma RaceReplacesOutcome(h: Digests) returns (w: World, e: Event, slot: Slot)
    ensures Reachable(h, w) && slot in w.records && Terminal(w.records[slot])
    ensures Terminal(Step(h, w, e).records[slot]) && Step(h, w, e).records[slot].errorCode != w.records[slot].errorCode
  {
    slot := (0, "key");
    var w0 := EMPTY;
    assert After(h, EMPTY, []) == EMPTY;
    var first, second := Submit(0, 0, "key", Failure(Invalid("first"))), Submit(1, 0, "key", Failure(Invalid("second")));
    StepIsReachable(h, w0, first);
    var w1 := Step(h, w0, first);
    StepIsReachable(h, w1, second);
    var w2 := Step(h, w1, second);
    var w3 := BothProceed(h, w2, slot, 0, 1);
    StepIsReachable(h, w3, Advance(0, false, false));
    w, e := Step(h, w3, Advance(0, false, false)), Advance(1, false, false);
    assert w.records[slot] == RESERVED.Fail(None, "first", 422, false);
    assert Step(h, w, e).records[slot] == w.records[slot].Fail(None, "second", 422, false);
  }

  // ---------- why taking a retry back has to be atomic ----------

  /** Two requests that both found the same retryable failure both come to claim it. */
  lemma BothClaim(h: Digests, w: World, slot: Slot, a: Rid, b: Rid) returns (after: World)
    requires Reachable(h, w) && a != b && a in w.requests && b in w.requests && Retryable(w, slot)
    requires w.requests[a].phase == Looking && w.requests[b].phase == Looking && w.records[slot].fingerprint == None
    requires SlotOf(w.requests[a]) == slot == SlotOf(w.requests[b])
    ensures Reachable(h, after) && after.requests.Keys == w.requests.Keys && after.records == w.records
    ensures after.requests[a] == w.requests[a].(phase := Claiming(false)) && after.requests[b] == w.requests[b].(phase := Claiming(false))
  {
    var w1 := Step(h, w, Advance(a, false, false));
    StepIsReachable(h, w, Advance(a, false, false));
    assert w1.requests[a].phase == Retrying(false) && w1.records == w.records;
    var w2 := Step(h, w1, Advance(b, false, false));
    StepIsReachable(h, w1, Advance(b, false, false));
    assert w2.requests[b].phase == Retrying(false) && w2.requests[a].phase == Retrying(false) && w2.records == w.records;
    var w3 := Step(h, w2, Advance(a, false, false));
    StepIsReachable(h, w2, Advance(a, false, false));
    assert w3.requests[a].phase == Claiming(false) && w3.requests[b].phase == Retrying(false) && w3.records == w.records;
    after := Step(h, w3, Advance(b, false, false));
    StepIsReachable(h, w3, Advance(b, false, false));
  }

  /** A retry that read the failed record before another one finished puts whatever that one
      wrote back in progress, a completed upload included. */
  lemma LateClaimReopens(h: Digests, w: World, rid: Rid, happened: bool, ok: bool)
    requires rid in w.requests && w.requests[rid].phase.Claiming? && SlotOf(w.requests[rid]) in w.records
    ensures var after := Step(h, w, Advance(rid, happened, ok));
      && after.requests[rid].phase == Reading(w.requests[rid].phase.spent)
      && after.records[SlotOf(w.requests[rid])].status == InProgress
  {
  }

  /** A reachable run: of two retries of one failure the second reopens what the first made final. */
  lemma RetryReopensOutcome(h: Digests) returns (w: World, e: Event, slot: Slot)
    ensures Reachable(h, w) && slot in w.records && Terminal(w.records[slot])
    ensures slot in Step(h, w, e).records && Step(h, w, e).records[slot].status == InProgress
  {
    var w0;
    w0, slot := RetryableWithoutFingerprint(h);
    var first, second := Submit(1, slot.0, slot.1, Failure(Invalid("first"))), Submit(2, slot.0, slot.1, Failure(Invalid("second")));
    StepIsReachable(h, w0, first);
    var w1 := Step(h, w0, first);
    StepIsReachable(h, w1, second);
    var w2 := Step(h, w1, second);
    var w3 := BothClaim(h, w2, slot, 1, 2);
    var go := Advance(1, false, false);
    StepIsReachable(h, w3, go);
    var w4 := Step(h, w3, go);
    LateClaimReopens(h, w3, 1, false, false);
    StepIsReachable(h, w4, go);
    w, e := Step(h, w4, go), Advance(2, false, false);
    assert w.requests[2] == w3.requests[2];
    LateClaimReopens(h, w, 2, false, false);
  }

  // ---------- exactly when a record is never written again ----------

  /** The event is a step that writes the record of the key. */
  ghost predicate Writes(h: Digests, w: World, e: Event, slot: Slot) {
    e.Advance? && e.rid in w.requests && SlotOf(w.requests[e.rid]) == slot && Next(h, w, e.rid, e.happened, e.ok).record.Some?
  }

  /** How many steps a request has at most before it answers. */
  function Rank(p: Phase): nat {
    match p
    case Looking => 19
    case Retrying(_) => 18
    case Claiming(_) => 17
    case Reserving => 16
    case Reading(_) => 15
    case Checking => 14
    case Adding => 13
    case Heading => 12
    case Copying => 11
    case Unstaging => 10
    case Confirming => 9
    case Tidying => 8
    case Publishing => 7
    case Failing => 6
    case Linking(_) => 5
    case Completing(_) => 4
    case Abandoning => 3
    case GivingUp => 2
    case Done(_) => 0
  }

  lemma RestlessProgress(h: Digests, w: World, rid: Rid)
    requires rid in w.requests && Restless(w.requests[rid].phase) && SlotOf(w.requests[rid]) in w.records
    requires AfterPreparing(w.requests[rid].phase) ==> w.requests[rid].input.Success?
    ensures var e := Next(h, w, rid, true, true);
      e.record.Some? || (Restless(e.phase) && Rank(e.phase) < Rank(w.requests[rid].phase))
  {
  }

  lemma {:induction false} AfterCons(h: Digests, w: World, e: Event, events: seq<Event>)
    ensures After(h, w, [e] + events) == After(h, Step(h, w, e), events)
  {
    if events == [] {
      assert [e] + events == [e] && [e][..0] == [];
      assert After(h, w, []) == w;
    } else {
      AfterCons(h, w, e, events[..|events| - 1]);
      assert ([e] + events)[..|[e] + events| - 1] == [e] + events[..|events| - 1];
    }
  }

  /** A restless request, left to itself, comes to write its record. */
  lemma {:induction false} RestlessWrites(h: Digests, w: World, rid: Rid) returns (events: seq<Event>, e: Event)
    requires Inv(h, w) && rid in w.requests && Restless(w.requests[rid].phase) && SlotOf(w.requests[rid]) in w.records
    ensures Writes(h, After(h, w, events), e, SlotOf(w.requests[rid]))
    decreases Rank(w.requests[rid].phase)
  {
    assert PhaseFits(h, w.documents, w.objects, rid, w.requests[rid]);
    RestlessProgress(h, w, rid);
    e := Advance(rid, true, true);
    events := [];
    if Next(h, w, rid, true, true).record.None? {
      var w1 := Step(h, w, e);
      StepKeepsInv(h, w, e);
      var more, last := RestlessWrites(h, w1, rid);
      AfterCons(h, w, e, more);
      events, e := [e] + more, last;
    }
  }

  ghost predicate NeverWritten(h: Digests, w: World, slot: Slot) {
    forall events, e :: !Writes(h, After(h, w, events), e, slot)
  }

  /** Exact condition: a final outcome is never written again, in any continuation, if and
      only if no request of its key is reserving it or working under it. */
  lemma NeverWrittenAgainIff(h: Digests, w: World, slot: Slot)
    requires Inv(h, w) && slot in w.records && Terminal(w.records[slot])
    ensures NeverWritten(h, w, slot) <==> Settled(w, slot)
  {
    if Settled(w, slot) {
      forall events, e ensures !Writes(h, After(h, w, events), e, slot) {
        TerminalIsAbsorbing(h, w, events, slot);
        var later := After(h, w, events);
        if e.Advance? && e.rid in later.requests && SlotOf(later.requests[e.rid]) == slot {
          SettledWritesNothing(h, later, e.rid, e.happened, e.ok, slot);
        }
      }
    } else {
      var rid :| rid in w.requests && SlotOf(w.requests[rid]) == slot && Restless(w.requests[rid].phase);
      var events, e := RestlessWrites(h, w, rid);
      assert Writes(h, After(h, w, events), e, slot);
    }
  }

  /** Where a request goes whose key is reserved already and whose storage calls all fail. */
  function AfterRefusal(p: Phase): Phase {
    match p
    case Reserving => Reading(false)
    case Claiming(_) => Reading(false)
    case Reading(_) => Abandoning
    case Abandoning => GivingUp
    case _ => Done(Unavailable)
  }

  predicate BeforeRefusal(p: Phase) {
    p == Reserving || p == Claiming(false) || p == Reading(false) || p == Abandoning || p == GivingUp
  }

  /** What a step leaves when its storage call, if it makes one, is refused. */
  lemma RefusedStep(h: Digests, w: World, rid: Rid, slot: Slot)
    requires rid in w.requests && SlotOf(w.requests[rid]) == slot && w.requests[rid].input.Success? && slot in w.records
    requires BeforeRefusal(w.requests[rid].phase)
    ensures var q, after := w.requests[rid], Step(h, w, Advance(rid, false, false));
      && rid in after.requests && after.requests[rid] == q.(phase := AfterRefusal(q.phase)) && slot in after.records
      && (q.phase == GivingUp ==> after.records[slot].status == Status.Failed && after.records[slot].retryable)
  {
  }

  /** A late request that still has its upload to read can turn any final outcome into a
      retryable failure: its temporary object only has to be refused. */
  lemma {:induction false} LateReaderReplaces(h: Digests, w: World, rid: Rid, slot: Slot) returns (events: seq<Event>)
    requires rid in w.requests && SlotOf(w.requests[rid]) == slot && w.requests[rid].input.Success? && slot in w.records
    requires BeforeRefusal(w.requests[rid].phase)
    ensures Retryable(After(h, w, events), slot)
    decreases Rank(w.requests[rid].phase)
  {
    var fail := Advance(rid, false, false);
    var next := Step(h, w, fail);
    RefusedStep(h, w, rid, slot);
    events := [];
    if w.requests[rid].phase == GivingUp {
      assert After(h, next, []) == next;
    } else {
      events := LateReaderReplaces(h, next, rid, slot);
    }
    AfterCons(h, w, fail, events);
    events := [fail] + events;
  }

  // ---------- staging ----------

  /** An upload whose stream is unread is staged exactly when its temporary object is accepted:
      then the object holds its bytes and the record its fingerprint, and nothing else changes. */
  lemma StagingIsRecorded(h: Digests, w: World, rid: Rid, happened: bool, ok: bool)
    requires rid in w.requests && w.requests[rid].phase == Reading(false) && w.requests[rid].input.Success?
    requires SlotOf(w.requests[rid]) in w.records
    ensures var q, after := w.requests[rid], Step(h, w, Advance(rid, happened, ok));
      var slot, temp := SlotOf(q), Temp(q.org, rid);
      && after.documents == w.documents
      && after.objects == (if happened || ok then w.objects[temp := q.input.value.data] else w.objects)
      && after.requests == w.requests[rid := q.(phase := if ok then Checking else Abandoning)]
      && (ok ==> after.records == w.records[slot := after.records[slot]] && FingerprintedFor(h, after.records[slot], q)
                 && after.records[slot] == w.records[slot].(fingerprint := after.records[slot].fingerprint))
      && (!ok ==> after.records == w.records)
  {
  }

  // ---------- known content ----------

  /** A document of the tenant holds these bytes. */
  predicate Known(documents: map<Rid, Document>, org: Org, hash: string, d: Rid) {
    d in documents && documents[d].org == org && documents[d].hash == hash
  }

  /** An upload is linked to the document that holds its bytes whenever there is one, at its
      check and again at the insertion; only without one is a document added. */
  lemma KnownContentIsLinked(h: Digests, w: World, rid: Rid, happened: bool, ok: bool)
    requires RequestsFit(h, w) && rid in w.requests && (w.requests[rid].phase == Checking || w.requests[rid].phase == Adding)
    ensures w.requests[rid].input.Success?
    ensures var q, after := w.requests[rid], Step(h, w, Advance(rid, happened, ok));
      var hash, next := h.content(q.input.value.data), after.requests[rid].phase;
      if exists d :: Known(w.documents, q.org, hash, d)
      then next.Linking? && Known(w.documents, q.org, hash, next.document) && after.documents == w.documents
      else if q.phase == Checking then next == Adding && after.documents == w.documents
      else next == Heading && after.documents == w.documents[rid := NewDocument(h, q.org, q.input.value)]
  {
    assert PhaseFits(h, w.documents, w.objects, rid, w.requests[rid]);
    var q := w.requests[rid];
    assert Step(h, w, Advance(rid, happened, ok)) == Apply(w, rid, Next(h, w, rid, happened, ok));
    forall d ensures Known(w.documents, q.org, h.content(q.input.value.data), d)
      <==> d in w.documents && OwnsHash(w.documents[d], q.org, h.content(q.input.value.data)) {}
  }

  /** Archiving a document archives it, once, and touches nothing else. */
  lemma ArchivingIsRecorded(h: Digests, w: World, d: Rid)
    requires d in w.documents
    ensures var before, after := w.documents[d], Step(h, w, ArchiveDocument(d));
      && after == w.(documents := w.documents[d := after.documents[d]])
      && after.documents[d] == before.(status := Archived, lockVersion := if before.status == Archived then before.lockVersion else before.lockVersion + 1)
  {
  }

  // ---------- storage failures ----------

  /** One of the four calls that make a new document's object final. */
  predicate Promoting(p: Phase) {
    p.Heading? || p.Copying? || p.Unstaging? || p.Confirming?
  }

  /** What the call would have to find for the upload to go on. */
  predicate Sees(w: World, rid: Rid, hash: string, size: nat)
    requires rid in w.requests
  {
    var q := w.requests[rid];
    match q.phase
    case Heading => Final(q.org, hash) in w.objects ==> |w.objects[Final(q.org, hash)]| == size
    case Copying => Temp(q.org, rid) in w.objects
    case Confirming => Final(q.org, hash) in w.objects
    case _ => true
  }

  /** Exact condition: a promotion call leads to failure if and only if it reports one or does
      not find what it needs. */
  lemma PromotionFailsIff(h: Digests, w: World, rid: Rid, happened: bool, ok: bool)
    requires RequestsFit(h, w) && rid in w.requests && Promoting(w.requests[rid].phase)
    ensures w.requests[rid].input.Success?
    ensures var u := w.requests[rid].input.value;
      var next := Step(h, w, Advance(rid, happened, ok)).requests[rid].phase;
      next == Failing <==> !ok || !Sees(w, rid, h.content(u.data), |u.data|)
  {
    var e := Next(h, w, rid, happened, ok);
    assert Step(h, w, Advance(rid, happened, ok)).requests[rid].phase == e.phase;
    assert PhaseFits(h, w.documents, w.objects, rid, w.requests[rid]);
  }

  /** A call that deletes the request's temporary object. */
  predicate DropsTemp(p: Phase) {
    p.Abandoning? || p.Linking? || p.Unstaging? || p.Tidying?
  }

  /** When such a call takes effect that object is gone, and no other; when it does not, none is. */
  lemma TempIsDropped(h: Digests, w: World, rid: Rid, happened: bool, ok: bool)
    requires RequestsFit(h, w) && rid in w.requests && DropsTemp(w.requests[rid].phase)
    ensures var temp, after := Temp(w.requests[rid].org, rid), Step(h, w, Advance(rid, happened, ok));
      after.objects == if happened || ok then w.objects - {temp} else w.objects
  {
    var e := Next(h, w, rid, happened, ok);
    assert Step(h, w, Advance(rid, happened, ok)).objects == ApplyObjects(w.objects, w.requests[rid].org, rid, e.objects);
    assert PhaseFits(h, w.documents, w.objects, rid, w.requests[rid]);
  }

  /** Only the promotion's delete can make an upload fail; the others are best effort. */
  lemma TidyingIsBestEffort(h: Digests, w: World, rid: Rid, happened: bool, ok: bool)
    requires RequestsFit(h, w) && rid in w.requests && DropsTemp(w.requests[rid].phase) && !w.requests[rid].phase.Unstaging?
    ensures var p, next := w.requests[rid].phase, Step(h, w, Advance(rid, happened, ok)).requests[rid].phase;
      && (p.Abandoning? ==> next == GivingUp) && (p.Tidying? ==> next == Publishing) && (p.Linking? ==> next == Completing(p.document))
  {
    assert PhaseFits(h, w.documents, w.objects, rid, w.requests[rid]);
  }

  /** A refused temporary object, or a failed promotion, on its way to being reported. */
  predicate Broken(q: Request) {
    q.phase == Abandoning || q.phase == GivingUp || q.phase == Failing || q.phase == Done(Unavailable) || q.phase == Done(Stopped)
  }

  lemma {:induction false} BrokenForever(h: Digests, start: World, events: seq<Event>, rid: Rid)
    requires rid in start.requests && Broken(start.requests[rid])
    ensures var w := After(h, start, events); rid in w.requests && Broken(w.requests[rid])
  {
    if events != [] { BrokenForever(h, start, events[..|events| - 1], rid); }
  }

  /** A storage failure is never reported as success: once the temporary object or a promotion
      call is refused, the request ends as unavailable, or is stopped, in every continuation. */
  lemma StorageFailureIsReported(h: Digests, w: World, rid: Rid, happened: bool, events: seq<Event>)
    requires Inv(h, w) && rid in w.requests && w.requests[rid].input.Success?
    requires Promoting(w.requests[rid].phase) || w.requests[rid].phase == Reading(false)
    ensures var later := After(h, Step(h, w, Advance(rid, happened, false)), events);
      rid in later.requests && Broken(later.requests[rid])
  {
    if Promoting(w.requests[rid].phase) { PromotionFailsIff(h, w, rid, happened, false); }
    BrokenForever(h, Step(h, w, Advance(rid, happened, false)), events, rid);
  }

  /** Reporting it marks version, document and key: the version failed, the document too
      unless it was archived meanwhile, and the key may be retried. */
  lemma FailureIsRecorded(h: Digests, w: World, rid: Rid, happened: bool, ok: bool)
    requires Inv(h, w) && rid in w.requests && w.requests[rid].phase == Failing && SlotOf(w.requests[rid]) in w.records
    ensures var q, after := w.requests[rid], Step(h, w, Advance(rid, happened, ok));
      && rid in w.documents && q.input.Success? && after.requests[rid].phase == Done(Unavailable)
      && after.documents[rid].storage == FailedVersion
      && (w.documents[rid].status != Archived ==> after.documents[rid].status == FailedDocument)
      && (w.documents[rid].status == Archived ==> after.documents[rid].status == Archived)
      && Retryable(after, SlotOf(q)) && FingerprintedFor(h, after.records[SlotOf(q)], q)
      && after.objects == w.objects
  {
    assert PhaseFits(h, w.documents, w.objects, rid, w.requests[rid]);
    assert DocumentFits(h, w, rid, w.documents[rid]);
  }

  /** Publishing marks all three stored, the document unless it was archived meanwhile. */
  lemma SuccessIsRecorded(h: Digests, w: World, rid: Rid, happened: bool, ok: bool)
    requires Inv(h, w) && rid in w.requests && w.requests[rid].phase == Publishing && SlotOf(w.requests[rid]) in w.records
    ensures var q, after := w.requests[rid], Step(h, w, Advance(rid, happened, ok));
      && rid in w.documents && q.input.Success? && after.requests[rid].phase == Done(Created(rid))
      && after.documents[rid].storage == StoredVersion
      && (w.documents[rid].status != Archived ==> after.documents[rid].status == Stored)
      && (w.documents[rid].status == Archived ==> after.documents[rid].status == Archived)
      && SlotOf(q) in after.records && AnsweredBy(h, after.requests[rid], after.records[SlotOf(q)])
      && after.records[SlotOf(q)].status == Completed
      && after.objects == w.objects
  {
    assert PhaseFits(h, w.documents, w.objects, rid, w.requests[rid]);
    assert DocumentFits(h, w, rid, w.documents[rid]);
  }

  // ---------- exactly when a retry can succeed ----------

  predicate Delivered(p: Phase) {
    p.Done? && (p.answer.Created? || p.answer.Duplicate?)
  }

  /** Some continuation ends the request with its upload registered. */
  ghost predicate CanDeliver(h: Digests, w: World, rid: Rid) {
    exists events :: rid in After(h, w, events).requests && Delivered(After(h, w, events).requests[rid].phase)
  }

  /** Nothing this request can still do registers its upload. */
  predicate Hopeless(q: Request) {
    (q.phase.Done? && !Delivered(q.phase))
    || ((q.phase.Retrying? || q.phase.Claiming? || q.phase.Reading?) && (q.phase.spent || q.input.Failure?))
  }

  lemma {:induction false} HopelessForever(h: Digests, start: World, events: seq<Event>, rid: Rid)
    requires rid in start.requests && Hopeless(start.requests[rid])
    ensures var w := After(h, start, events); rid in w.requests && Hopeless(w.requests[rid])
  {
    if events != [] { HopelessForever(h, start, events[..|events| - 1], rid); }
  }

  /** On its way to registering the upload, with its temporary object still to be used. */
  predicate OnTrack(w: World, rid: Rid) {
    rid in w.requests
    && var q := w.requests[rid];
    && q.input.Success? && SlotOf(q) in w.records
    && match q.phase
       case Retrying(spent) => !spent && Retryable(w, SlotOf(q))
       case Claiming(spent) => !spent
       case Reading(spent) => !spent
       case Checking => Temp(q.org, rid) in w.objects
       case Adding => Temp(q.org, rid) in w.objects
       case Heading => Temp(q.org, rid) in w.objects
       case Copying => Temp(q.org, rid) in w.objects
       case Linking(_) => true
       case Completing(_) => true
       case Unstaging => true
       case Confirming => true
       case Tidying => true
       case Publishing => true
       case _ => false
  }

  /** The phase and the stores after the next step, when storage answers. */
  ghost predicate Progresses(h: Digests, w: World, rid: Rid)
    requires rid in w.requests
  {
    var next := Step(h, w, Advance(rid, true, true));
    && rid in next.requests
    && (Delivered(next.requests[rid].phase)
        || (OnTrack(next, rid) && Rank(next.requests[rid].phase) < Rank(w.requests[rid].phase)))
  }

  lemma EarlyProgress(h: Digests, w: World, rid: Rid)
    requires OnTrack(w, rid) && !AfterPreparing(w.requests[rid].phase)
    ensures Progresses(h, w, rid)
  {
  }

  lemma MiddleProgress(h: Digests, w: World, rid: Rid)
    requires OnTrack(w, rid) && AfterPreparing(w.requests[rid].phase) && !HoldsDocument(w.requests[rid].phase)
    ensures Progresses(h, w, rid)
  {
  }

  lemma LateProgress(h: Digests, w: World, rid: Rid)
    requires OnTrack(w, rid) && HoldsDocument(w.requests[rid].phase)
    requires var q := w.requests[rid];
      var final := Final(q.org, h.content(q.input.value.data));
      && (FinalKnown(q.phase) ==> final in w.objects)
      && (final in w.objects ==> |w.objects[final]| == |q.input.value.data|)
    ensures Progresses(h, w, rid)
  {
  }

  /** Storage that answers keeps a request on track, one step nearer to its answer. */
  lemma OnTrackProgress(h: Digests, w: World, rid: Rid)
    requires Inv(h, w) && Injective(h) && OnTrack(w, rid)
    ensures Progresses(h, w, rid)
  {
    var q := w.requests[rid];
    assert PhaseFits(h, w.documents, w.objects, rid, q);
    var final := Final(q.org, h.content(q.input.value.data));
    if final in w.objects { assert ObjectFits(h, w, final, w.objects[final]); }
    if HoldsDocument(q.phase) { LateProgress(h, w, rid); }
    else if AfterPreparing(q.phase) { MiddleProgress(h, w, rid); }
    else { EarlyProgress(h, w, rid); }
  }

  lemma {:induction false} OnTrackDelivers(h: Digests, w: World, rid: Rid)
    requires Inv(h, w) && Injective(h) && OnTrack(w, rid)
    ensures CanDeliver(h, w, rid)
    decreases Rank(w.requests[rid].phase)
  {
    var e := Advance(rid, true, true);
    OnTrackProgress(h, w, rid);
    var next := Step(h, w, e);
    StepKeepsInv(h, w, e);
    var events := [];
    if Delivered(next.requests[rid].phase) {
      assert After(h, next, []) == next;
    } else {
      OnTrackDelivers(h, next, rid);
      events :| rid in After(h, next, events).requests && Delivered(After(h, next, events).requests[rid].phase);
    }
    AfterCons(h, w, e, events);
  }

  /** Exact condition: a request that finds a retryable failure can still register its upload
      if and only if the failed record holds no fingerprint. Comparing fingerprints spends the
      one-shot stream; a failure before the fingerprint existed leaves it unread, and lets a
      different upload through as well. */
  lemma RetryDeliversIff(h: Digests, w: World, rid: Rid, happened: bool, ok: bool)
    requires Reachable(h, w) && Injective(h) && rid in w.requests && w.requests[rid].phase == Looking
    requires SlotOf(w.requests[rid]) in w.records
    requires w.records[SlotOf(w.requests[rid])].status == Status.Failed && w.records[SlotOf(w.requests[rid])].retryable
    ensures CanDeliver(h, Step(h, w, Advance(rid, happened, ok)), rid)
      <==> w.records[SlotOf(w.requests[rid])].fingerprint.None? && w.requests[rid].input.Success?
  {
    ReachableInv(h, w);
    LookupLeavesStores(h, w, rid, happened, ok);
    var next := Step(h, w, Advance(rid, happened, ok));
    StepKeepsInv(h, w, Advance(rid, happened, ok));
    if w.records[SlotOf(w.requests[rid])].fingerprint.None? && w.requests[rid].input.Success? {
      OnTrackDelivers(h, next, rid);
    } else {
      assert Hopeless(next.requests[rid]);
      forall events ensures rid in After(h, next, events).requests && !Delivered(After(h, next, events).requests[rid].phase) {
        HopelessForever(h, next, events, rid);
      }
    }
  }

  /** Both kinds of retryable failure are reachable, so retries of either kind occur. */
  lemma RetryableWithoutFingerprint(h: Digests) returns (w: World, slot: Slot)
    ensures Reachable(h, w) && slot in w.records
    ensures w.records[slot].status == Status.Failed && w.records[slot].retryable && w.records[slot].fingerprint.None?
    ensures w.requests.Keys == {0} && w.documents == map[]
  {
    slot := (0, "key");
    assert After(h, EMPTY, []) == EMPTY;
    var submit, go := Submit(0, 0, "key", Failure(Unexpected)), Advance(0, false, false);
    StepIsReachable(h, EMPTY, submit);
    var w1 := Step(h, EMPTY, submit);
    StepIsReachable(h, w1, go);
    var w2 := Step(h, w1, go);
    assert w2.requests[0].phase == Reserving;
    StepIsReachable(h, w2, go);
    var w3 := Step(h, w2, go);
    assert w3.requests[0].phase == Reading(false);
    StepIsReachable(h, w3, go);
    w := Step(h, w3, go);
  }
}
