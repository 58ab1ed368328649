/** Idempotency keys: when looking a key up and taking it are one step, its outcome is
    final and every replay is answered alike
    (application/documents/service.py, infrastructure/documents/repository.py). */
module UploadReplay {
  import opened Common
  import opened UploadReader
  import opened UploadProtocol
  import opened UploadSafety

  type Slot = (Org, string)

  function SlotOf(q: Request): Slot {
    (q.org, q.key)
  }

  /** The request has reserved its key and not yet answered. */
  predicate Owning(p: Phase) {
    p.Reading? || AfterPreparing(p)
  }

  ghost predicate OwnersHold(w: World) {
    forall rid :: rid in w.requests && Owning(w.requests[rid].phase) ==>
      SlotOf(w.requests[rid]) in w.records && w.records[SlotOf(w.requests[rid])].status == InProgress
  }

  ghost predicate OneOwner(w: World) {
    forall a, b ::
      a in w.requests && b in w.requests && Owning(w.requests[a].phase) && Owning(w.requests[b].phase)
      && SlotOf(w.requests[a]) == SlotOf(w.requests[b])
      ==> a == b
  }

  /** The answer a finished record was written with. */
  predicate AnsweredBy(h: Digests, q: Request, r: Record) {
    match r.status
    case InProgress => false
    case Completed =>
      && r.document.Some? && r.responseStatus == Some(if r.duplicate then 200 else 201) && r.errorCode == None
      && q.input.Success? && r.fingerprint == Some(Fingerprint(h, q.input.value))
      && q.phase == Done(if r.duplicate then Duplicate(r.document.value) else Created(r.document.value))
    case Failed => if r.retryable then GaveUp(h, q, r) else RejectedBy(q, r)
  }

  /** Storage or preparation broke down; only an upload that was prepared has a fingerprint. */
  predicate GaveUp(h: Digests, q: Request, r: Record) {
    && r.errorCode == Some("object_storage_unavailable") && r.responseStatus == Some(503) && q.phase == Done(Unavailable)
    && r.fingerprint == (if q.input.Success? then Some(Fingerprint(h, q.input.value)) else None)
    && (q.input.Failure? ==> q.input.error == Unexpected)
  }

  /** Validation refused the upload, or found the stream of a retry empty. */
  predicate RejectedBy(q: Request, r: Record) {
    && r.errorCode.Some? && r.responseStatus == Some(422) && r.fingerprint == None && q.phase == Done(Rejected(r.errorCode.value))
    && (q.input == Failure(Invalid(r.errorCode.value)) || (q.input.Success? && r.errorCode.value == "empty_file"))
  }

  ghost predicate HasAuthor(h: Digests, requests: map<Rid, Request>, slot: Slot, r: Record) {
    exists o :: o in requests && SlotOf(requests[o]) == slot && AnsweredBy(h, requests[o], r)
  }

  ghost predicate RecordFits(h: Digests, w: World, slot: Slot, r: Record) {
    r.status == InProgress || HasAuthor(h, w.requests, slot, r)
  }

  ghost predicate RecordsFit(h: Digests, w: World) {
    forall slot :: slot in w.records ==> RecordFits(h, w, slot, w.records[slot])
  }

  ghost predicate KeyInv(h: Digests, w: World) {
    OwnersHold(w) && OneOwner(w) && RecordsFit(h, w)
  }

  predicate Retryable(w: World, slot: Slot) {
    slot in w.records && w.records[slot].status == Status.Failed && w.records[slot].retryable
  }

  /** The key is still free when it is reserved, and still a retryable failure when it is
      taken back for a retry. */
  predicate InTime(w: World, q: Request) {
    && (q.phase.Reserving? ==> SlotOf(q) !in w.records)
    && (q.phase.Claiming? ==> Retryable(w, SlotOf(q)))
  }

  /** Neither a reservation nor a retry loses a race. */
  predicate Atomic(w: World, e: Event) {
    e.Advance? && e.rid in w.requests ==> InTime(w, w.requests[e.rid])
  }

  ghost predicate Serialized(h: Digests, start: World, events: seq<Event>) {
    events == []
    || (Serialized(h, start, events[..|events| - 1]) && Atomic(After(h, start, events[..|events| - 1]), events[|events| - 1]))
  }

  // ---------- ownership ----------

  datatype KeyUse = Leaves | Takes | Keeps | Finishes

  function UseOf(q: Request, e: Effect): KeyUse {
    if !Owning(q.phase) then (if e.record.None? then Leaves else Takes)
    else if Owning(e.phase) then Keeps
    else Finishes
  }

  /** How a step may treat the record of its key. */
  ghost predicate KeyLegal(h: Digests, records: map<Slot, Record>, q: Request, e: Effect) {
    var slot := SlotOf(q);
    match UseOf(q, e)
    case Leaves => Owning(e.phase) ==> q.phase.Reserving? && slot in records
    case Takes =>
      && e.record.Some? && e.record.value.status == InProgress && Owning(e.phase)
      && (q.phase.Claiming? || slot !in records)
    case Keeps => slot in records && e.record.Some? ==> e.record.value.status == records[slot].status
    case Finishes => e.record.Some? && AnsweredBy(h, q.(phase := e.phase), e.record.value)
  }

  lemma PreparedUsesKeyLegally(h: Digests, w: World, rid: Rid, q: Request, record: Record, effective: bool, ok: bool)
    requires AfterPreparing(q.phase) && q.input.Success?
    ensures KeyLegal(h, w.records, q, NextPrepared(h, w, rid, q, q.input.value, record, effective, ok))
  {
    var e := NextPrepared(h, w, rid, q, q.input.value, record, effective, ok);
    assert e.record.None? <==> Owning(e.phase);
  }

  lemma NextUsesKeyLegally(h: Digests, w: World, rid: Rid, happened: bool, ok: bool)
    requires rid in w.requests && (AfterPreparing(w.requests[rid].phase) ==> w.requests[rid].input.Success?)
    ensures KeyLegal(h, w.records, w.requests[rid], Next(h, w, rid, happened, ok))
  {
    var q := w.requests[rid];
    if AfterPreparing(q.phase) {
      var record := if SlotOf(q) in w.records then w.records[SlotOf(q)] else RESERVED;
      PreparedUsesKeyLegally(h, w, rid, q, record, happened || ok, ok);
      assert Next(h, w, rid, happened, ok) == NextPrepared(h, w, rid, q, q.input.value, record, happened || ok, ok);
    } else {
      EarlyUsesKeyLegally(h, w, rid, happened, ok);
    }
  }

  lemma EarlyUsesKeyLegally(h: Digests, w: World, rid: Rid, happened: bool, ok: bool)
    requires rid in w.requests && !AfterPreparing(w.requests[rid].phase)
    ensures KeyLegal(h, w.records, w.requests[rid], Next(h, w, rid, happened, ok))
  {
    var q := w.requests[rid];
    var e := Next(h, w, rid, happened, ok);
    if q.phase.Looking? {
      assert e.record.None? && !Owning(e.phase);
    }
  }

  lemma DoneStaysDone(h: Digests, w: World, rid: Rid, happened: bool, ok: bool)
    requires rid in w.requests && w.requests[rid].phase.Done?
    ensures Apply(w, rid, Next(h, w, rid, happened, ok)) == w
  {
    assert w.requests[rid := w.requests[rid]] == w.requests;
  }

  lemma AuthorsRemain(h: Digests, w: World, after: World, slot: Slot, r: Record)
    requires HasAuthor(h, w.requests, slot, r)
    requires forall o :: o in w.requests && w.requests[o].phase.Done? ==> o in after.requests && after.requests[o] == w.requests[o]
    ensures HasAuthor(h, after.requests, slot, r)
  {
    var o :| o in w.requests && SlotOf(w.requests[o]) == slot && AnsweredBy(h, w.requests[o], r);
    assert after.requests[o] == w.requests[o];
  }

  lemma RecordsFrame(w: World, rid: Rid, e: Effect)
    requires rid in w.requests
    ensures var after := Apply(w, rid, e);
      && after.requests.Keys == w.requests.Keys && after.requests[rid] == w.requests[rid].(phase := e.phase)
      && (forall o :: o in w.requests && o != rid ==> after.requests[o] == w.requests[o])
      && (forall slot :: slot in w.records && slot != SlotOf(w.requests[rid]) ==> slot in after.records && after.records[slot] == w.records[slot])
      && after.records == if e.record.Some? then w.records[SlotOf(w.requests[rid]) := e.record.value] else w.records
  {
  }

  lemma OwnersKeepHolding(h: Digests, w: World, rid: Rid, e: Effect)
    requires rid in w.requests && KeyLegal(h, w.records, w.requests[rid], e)
    requires OwnersHold(w) && OneOwner(w) && InTime(w, w.requests[rid])
    ensures OwnersHold(Apply(w, rid, e))
  {
    RecordsFrame(w, rid, e);
    if UseOf(w.requests[rid], e).Takes? { NoOwnerYet(w, SlotOf(w.requests[rid])); }
  }

  lemma OneOwnerRemains(h: Digests, w: World, rid: Rid, e: Effect)
    requires rid in w.requests && KeyLegal(h, w.records, w.requests[rid], e)
    requires OwnersHold(w) && OneOwner(w) && InTime(w, w.requests[rid])
    ensures OneOwner(Apply(w, rid, e))
  {
    RecordsFrame(w, rid, e);
    if UseOf(w.requests[rid], e).Takes? { NoOwnerYet(w, SlotOf(w.requests[rid])); }
  }

  lemma NoOwnerYet(w: World, slot: Slot)
    requires OwnersHold(w) && (slot in w.records ==> w.records[slot].status != InProgress)
    ensures forall o :: o in w.requests && Owning(w.requests[o].phase) ==> SlotOf(w.requests[o]) != slot
  {
  }

  lemma RecordsStayFit(h: Digests, w: World, rid: Rid, e: Effect)
    requires rid in w.requests && KeyLegal(h, w.records, w.requests[rid], e)
    requires RecordsFit(h, w) && OwnersHold(w)
    requires w.requests[rid].phase.Done? ==> e.phase == w.requests[rid].phase
    ensures RecordsFit(h, Apply(w, rid, e))
  {
    var q := w.requests[rid];
    var after := Apply(w, rid, e);
    assert forall o :: o in w.requests && w.requests[o].phase.Done? ==> o in after.requests && after.requests[o] == w.requests[o];
    forall slot | slot in after.records ensures RecordFits(h, after, slot, after.records[slot]) {
      if slot in w.records && after.records[slot] == w.records[slot] {
        assert RecordFits(h, w, slot, w.records[slot]);
        if w.records[slot].status != InProgress { AuthorsRemain(h, w, after, slot, w.records[slot]); }
      } else {
        assert slot == SlotOf(q) && e.record == Some(after.records[slot]);
        if UseOf(q, e).Finishes? {
          assert rid in after.requests && SlotOf(after.requests[rid]) == slot && after.requests[rid] == q.(phase := e.phase);
        }
      }
    }
  }

  lemma AdvanceKeepsKeyInv(h: Digests, w: World, rid: Rid, happened: bool, ok: bool)
    requires rid in w.requests && RequestsFit(h, w) && KeyInv(h, w) && Atomic(w, Advance(rid, happened, ok))
    ensures KeyInv(h, Apply(w, rid, Next(h, w, rid, happened, ok)))
  {
    var e := Next(h, w, rid, happened, ok);
    assert PhaseFits(h, w.documents, w.objects, rid, w.requests[rid]);
    NextUsesKeyLegally(h, w, rid, happened, ok);
    OwnersKeepHolding(h, w, rid, e);
    OneOwnerRemains(h, w, rid, e);
    if w.requests[rid].phase.Done? { DoneStaysDone(h, w, rid, happened, ok); } else { RecordsStayFit(h, w, rid, e); }
  }

  /** Steps that only submit, stop or archive leave the records and every answer alone. */
  lemma OtherStepsKeepKeyInv(h: Digests, w: World, after: World)
    requires KeyInv(h, w) && after.records == w.records
    requires forall o :: o in w.requests && w.requests[o].phase.Done? ==> o in after.requests && after.requests[o] == w.requests[o]
    requires forall o :: o in after.requests && Owning(after.requests[o].phase) ==> o in w.requests && w.requests[o] == after.requests[o]
    ensures KeyInv(h, after)
  {
    forall slot | slot in after.records ensures RecordFits(h, after, slot, after.records[slot]) {
      assert RecordFits(h, w, slot, w.records[slot]);
      if w.records[slot].status != InProgress { AuthorsRemain(h, w, after, slot, w.records[slot]); }
    }
  }

  /** Submitting, stopping and archiving write no record, and move no answered request. */
  lemma OtherStepsFrame(h: Digests, w: World, e: Event)
    requires Enabled(w, e) && !e.Advance?
    ensures var after := Step(h, w, e);
      && after.records == w.records
      && (forall o :: o in w.requests && w.requests[o].phase.Done? ==> o in after.requests && after.requests[o] == w.requests[o])
      && (forall o :: o in after.requests && Owning(after.requests[o].phase) ==> o in w.requests && w.requests[o] == after.requests[o])
  {
  }

  lemma StepKeepsKeyInv(h: Digests, w: World, e: Event)
    requires RequestsFit(h, w) && KeyInv(h, w) && Atomic(w, e)
    ensures KeyInv(h, Step(h, w, e))
  {
    if Enabled(w, e) {
      if e.Advance? {
        AdvanceKeepsKeyInv(h, w, e.rid, e.happened, e.ok);
      } else {
        OtherStepsFrame(h, w, e);
        OtherStepsKeepKeyInv(h, w, Step(h, w, e));
      }
    }
  }

  lemma {:induction false} SerializedKeepsKeyInv(h: Digests, start: World, events: seq<Event>)
    requires Inv(h, start) && KeyInv(h, start) && Serialized(h, start, events)
    ensures Inv(h, After(h, start, events)) && KeyInv(h, After(h, start, events))
  {
    if events != [] {
      var init := events[..|events| - 1];
      SerializedKeepsKeyInv(h, start, init);
      StepKeepsInv(h, After(h, start, init), events[|events| - 1]);
      StepKeepsKeyInv(h, After(h, start, init), events[|events| - 1]);
    }
  }

  /** States reached from empty stores while no reservation and no retry loses a race. */
  ghost predicate SerialReachable(h: Digests, w: World) {
    exists events :: Serialized(h, EMPTY, events) && w == After(h, EMPTY, events)
  }

  lemma SerialInv(h: Digests, w: World)
    requires SerialReachable(h, w)
    ensures Inv(h, w) && KeyInv(h, w)
  {
    var events :| Serialized(h, EMPTY, events) && w == After(h, EMPTY, events);
    SerializedKeepsKeyInv(h, EMPTY, events);
  }

  // ---------- absorbing outcomes ----------

  predicate Terminal(r: Record) {
    r.status == Completed || (r.status == Status.Failed && !r.retryable)
  }

  lemma StepKeepsTerminal(h: Digests, w: World, e: Event, slot: Slot)
    requires RequestsFit(h, w) && KeyInv(h, w) && Atomic(w, e) && slot in w.records && Terminal(w.records[slot])
    ensures slot in Step(h, w, e).records && Step(h, w, e).records[slot] == w.records[slot]
  {
    if Enabled(w, e) && e.Advance? {
      assert PhaseFits(h, w.documents, w.objects, e.rid, w.requests[e.rid]);
      NextUsesKeyLegally(h, w, e.rid, e.happened, e.ok);
      NoOwnerYet(w, slot);
    }
  }

  /** While reservations and retries are atomic, COMPLETED and non-retryable FAILED records never change. */
  lemma {:induction false} SerializedKeepsTerminal(h: Digests, start: World, events: seq<Event>, slot: Slot)
    requires Inv(h, start) && KeyInv(h, start) && Serialized(h, start, events)
    requires slot in start.records && Terminal(start.records[slot])
    ensures var w := After(h, start, events); slot in w.records && w.records[slot] == start.records[slot]
  {
    if events != [] {
      var init := events[..|events| - 1];
      SerializedKeepsTerminal(h, start, init, slot);
      SerializedKeepsKeyInv(h, start, init);
      StepKeepsTerminal(h, After(h, start, init), events[|events| - 1], slot);
    }
  }

  /** The request may still write the record of its key. */
  predicate Restless(p: Phase) {
    p.Reserving? || p.Claiming? || Owning(p)
  }

  /** A final outcome that nobody is about to write over. */
  ghost predicate Settled(w: World, slot: Slot) {
    && slot in w.records && Terminal(w.records[slot])
    && forall o :: o in w.requests && SlotOf(w.requests[o]) == slot ==> !Restless(w.requests[o].phase)
  }

  lemma SettledWritesNothing(h: Digests, w: World, rid: Rid, happened: bool, ok: bool, slot: Slot)
    requires Settled(w, slot) && rid in w.requests && SlotOf(w.requests[rid]) == slot
    ensures var e := Next(h, w, rid, happened, ok); e.record.None? && !Restless(e.phase)
  {
    var q := w.requests[rid];
    assert q.phase.Looking? || q.phase.Retrying? || q.phase.Done?;
  }

  lemma StepKeepsSettled(h: Digests, w: World, e: Event, slot: Slot)
    requires Settled(w, slot)
    ensures Settled(Step(h, w, e), slot) && Step(h, w, e).records[slot] == w.records[slot]
  {
    if Enabled(w, e) && e.Advance? {
      var q := w.requests[e.rid];
      if SlotOf(q) == slot { SettledWritesNothing(h, w, e.rid, e.happened, e.ok, slot); }
      var after := Step(h, w, e);
      forall o | o in after.requests && SlotOf(after.requests[o]) == slot ensures !Restless(after.requests[o].phase) {
        if o != e.rid { assert after.requests[o] == w.requests[o]; }
      }
    }
  }

  /** A final outcome is absorbing in every continuation, racing ones included, once no
      request of its key is reserving it or working under it. */
  lemma {:induction false} TerminalIsAbsorbing(h: Digests, start: World, events: seq<Event>, slot: Slot)
    requires Settled(start, slot)
    ensures var w := After(h, start, events); Settled(w, slot) && w.records[slot] == start.records[slot]
  {
    if events != [] {
      var init := events[..|events| - 1];
      TerminalIsAbsorbing(h, start, init, slot);
      StepKeepsSettled(h, After(h, start, init), events[|events| - 1], slot);
    }
  }

  /** The record outlives the continuation: it is settled, or reservations stay atomic. */
  ghost predicate Lasting(h: Digests, w: World, slot: Slot, events: seq<Event>) {
    slot in w.records && Terminal(w.records[slot]) && (Settled(w, slot) || Serialized(h, w, events))
  }

  lemma LastingStays(h: Digests, w: World, slot: Slot, events: seq<Event>)
    requires SerialReachable(h, w) && Lasting(h, w, slot, events)
    ensures var later := After(h, w, events); slot in later.records && later.records[slot] == w.records[slot]
    ensures Inv(h, w) && RecordsFit(h, w)
  {
    SerialInv(h, w);
    if Settled(w, slot) { TerminalIsAbsorbing(h, w, events, slot); } else { SerializedKeepsTerminal(h, w, events, slot); }
  }

  lemma LookupLeavesStores(h: Digests, w: World, rid: Rid, happened: bool, ok: bool)
    requires rid in w.requests && w.requests[rid].phase == Looking
    ensures Step(h, w, Advance(rid, happened, ok))
      == w.(requests := w.requests[rid := w.requests[rid].(phase := OnLookup(h, w, w.requests[rid]))])
  {
  }

  /** What a request finds under its key decides alone where it goes, and going there changes
      nothing else. */
  ghost predicate Turns(h: Digests, w: World, rid: Rid, happened: bool, ok: bool, next: Phase)
    requires rid in w.requests
  {
    Step(h, w, Advance(rid, happened, ok)) == w.(requests := w.requests[rid := w.requests[rid].(phase := next)])
  }

  /** A key in progress turns every other request away at its first look. */
  lemma InProgressTurnsAway(h: Digests, w: World, rid: Rid, happened: bool, ok: bool)
    requires rid in w.requests && w.requests[rid].phase == Looking
    requires SlotOf(w.requests[rid]) in w.records && w.records[SlotOf(w.requests[rid])].status == InProgress
    ensures Turns(h, w, rid, happened, ok, Done(AlreadyInProgress))
  {
  }

  /** The upload a record was fingerprinted for. */
  ghost predicate FingerprintedFor(h: Digests, r: Record, q: Request) {
    q.input.Success? && r.fingerprint == Some(Fingerprint(h, q.input.value))
  }

  /** Exact conditions: a request goes on to reserve its key if and only if the key is free,
      and to retry if and only if it finds a retryable failure that holds no fingerprint or
      its own; it has read its stream by then exactly in the second case. */
  lemma GoesOnIff(h: Digests, w: World, rid: Rid, happened: bool, ok: bool)
    requires rid in w.requests && w.requests[rid].phase == Looking
    ensures var q := w.requests[rid];
      var next := Step(h, w, Advance(rid, happened, ok)).requests[rid].phase;
      && (next == Reserving <==> SlotOf(q) !in w.records)
      && (next == Retrying(false) <==> Retryable(w, SlotOf(q)) && w.records[SlotOf(q)].fingerprint == None)
      && (next == Retrying(true) <==> Retryable(w, SlotOf(q)) && FingerprintedFor(h, w.records[SlotOf(q)], q))
      && (next.Reserving? || next.Retrying? || next.Done?)
      && Turns(h, w, rid, happened, ok, next)
  {
    LookupLeavesStores(h, w, rid, happened, ok);
  }

  /** What differs from a completed or fingerprinted record is a conflict; only an error other
      than a validation error passes through the comparison. */
  lemma DifferentUploadIsAnswered(h: Digests, w: World, rid: Rid, happened: bool, ok: bool)
    requires rid in w.requests && w.requests[rid].phase == Looking && SlotOf(w.requests[rid]) in w.records
    requires var r, q := w.records[SlotOf(w.requests[rid])], w.requests[rid];
      !FingerprintedFor(h, r, q) && (r.status == Completed || (r.status == Status.Failed && r.fingerprint.Some?))
    ensures Turns(h, w, rid, happened, ok, Done(if w.requests[rid].input == Failure(Unexpected) then Crashed else Conflict))
  {
  }

  /** The same upload under a completed key is answered from the record, as long as the
      document it names is there. */
  lemma CompletedIsAnswered(h: Digests, w: World, rid: Rid, happened: bool, ok: bool)
    requires rid in w.requests && w.requests[rid].phase == Looking && SlotOf(w.requests[rid]) in w.records
    requires var r := w.records[SlotOf(w.requests[rid])]; r.status == Completed && FingerprintedFor(h, r, w.requests[rid])
    ensures var r := w.records[SlotOf(w.requests[rid])];
      Turns(h, w, rid, happened, ok, Done(
        if r.document.Some? && r.document.value in w.documents
        then Replayed(r.document.value, r.duplicate, if r.responseStatus.Some? then r.responseStatus.value else 200)
        else Conflict))
  {
  }

  /** A retry reads the record once more, claims it if and only if it is still a retryable
      failure, and crashes otherwise. */
  lemma ClaimsIff(h: Digests, w: World, rid: Rid, happened: bool, ok: bool)
    requires rid in w.requests && w.requests[rid].phase.Retrying?
    ensures Turns(h, w, rid, happened, ok,
                  if Retryable(w, SlotOf(w.requests[rid])) then Claiming(w.requests[rid].phase.spent) else Done(Crashed))
  {
  }

  lemma {:induction false} AnswersStay(h: Digests, start: World, events: seq<Event>, rid: Rid)
    requires rid in start.requests && start.requests[rid].phase.Done?
    ensures var w := After(h, start, events); rid in w.requests && w.requests[rid] == start.requests[rid]
  {
    if events != [] {
      var init, e := events[..|events| - 1], events[|events| - 1];
      AnswersStay(h, start, init, rid);
      var w := After(h, start, init);
      if e.Advance? && e.rid == rid { DoneStaysDone(h, w, rid, e.happened, e.ok); }
    }
  }

  /** While a request works under its key, any other that looks the key up is answered so at
      once and for good: it never reserves, claims or works under it. */
  lemma HeldKeyTurnsAway(h: Digests, w: World, holder: Rid, rid: Rid, happened: bool, ok: bool, events: seq<Event>)
    requires SerialReachable(h, w) && holder in w.requests && Owning(w.requests[holder].phase)
    requires rid in w.requests && w.requests[rid].phase == Looking && SlotOf(w.requests[rid]) == SlotOf(w.requests[holder])
    ensures Turns(h, w, rid, happened, ok, Done(AlreadyInProgress))
    ensures var later := After(h, Step(h, w, Advance(rid, happened, ok)), events);
      rid in later.requests && later.requests[rid] == w.requests[rid].(phase := Done(AlreadyInProgress))
  {
    SerialInv(h, w);
    InProgressTurnsAway(h, w, rid, happened, ok);
    AnswersStay(h, Step(h, w, Advance(rid, happened, ok)), events, rid);
  }

  /** A request that looks its key up in the world after these events. */
  ghost predicate LooksUp(h: Digests, w: World, slot: Slot, events: seq<Event>, rid: Rid) {
    var later := After(h, w, events);
    rid in later.requests && later.requests[rid].phase == Looking && SlotOf(later.requests[rid]) == slot
  }

  lemma {:induction false} DocumentsPersist(h: Digests, start: World, events: seq<Event>, d: Rid)
    requires d in start.documents
    ensures d in After(h, start, events).documents
  {
    if events != [] { DocumentsPersist(h, start, events[..|events| - 1], d); }
  }

  /** Once a key is completed, every later request with it gets the answer its author got when
      it is the same upload and a mismatch when it is not, and changes no store. */
  lemma ReplayReturnsTheFirstAnswer(h: Digests, w: World, slot: Slot, events: seq<Event>, rid: Rid, happened: bool, ok: bool)
    requires SerialReachable(h, w) && Lasting(h, w, slot, events) && w.records[slot].status == Completed
    requires LooksUp(h, w, slot, events, rid)
    ensures var r := w.records[slot];
      var later := After(h, w, events);
      var q := later.requests[rid];
      && HasAuthor(h, w.requests, slot, r) && r.document.Some? && r.responseStatus.Some?
      && Step(h, later, Advance(rid, happened, ok)) == later.(requests := later.requests[rid := q.(phase :=
           Done(if SameRequest(h, r, q.input) then Replayed(r.document.value, r.duplicate, r.responseStatus.value)
                else Mismatch(h, r, q.input)))])
  {
    LastingStays(h, w, slot, events);
    assert RecordFits(h, w, slot, w.records[slot]);
    AuthoredDocumentExists(h, w, slot, w.records[slot]);
    DocumentsPersist(h, w, events, w.records[slot].document.value);
    LookupLeavesStores(h, After(h, w, events), rid, happened, ok);
  }

  lemma AuthoredDocumentExists(h: Digests, w: World, slot: Slot, r: Record)
    requires RequestsFit(h, w) && HasAuthor(h, w.requests, slot, r) && r.status == Completed
    ensures r.document.Some? && r.document.value in w.documents
  {
    var o :| o in w.requests && SlotOf(w.requests[o]) == slot && AnsweredBy(h, w.requests[o], r);
    assert PhaseFits(h, w.documents, w.objects, o, w.requests[o]);
  }

  /** A validation failure is replayed to every later request with the key, whatever it
      uploads: the failed record holds no fingerprint to compare, and the code its author got. */
  lemma ValidationFailureIsReplayed(h: Digests, w: World, slot: Slot, events: seq<Event>, rid: Rid)
    requires SerialReachable(h, w) && Lasting(h, w, slot, events) && w.records[slot].status == Status.Failed
    requires LooksUp(h, w, slot, events, rid)
    ensures w.records[slot].errorCode.Some? && HasAuthor(h, w.requests, slot, w.records[slot])
    ensures var later := After(h, w, events);
      OnLookup(h, later, later.requests[rid]) == Done(Rejected(w.records[slot].errorCode.value))
  {
    LastingStays(h, w, slot, events);
    assert RecordFits(h, w, slot, w.records[slot]);
  }

  /** Exact condition: of the final outcomes, a later upload of something else is a conflict
      if and only if the outcome was a completed upload. */
  lemma ConflictIffCompleted(h: Digests, w: World, slot: Slot, events: seq<Event>, rid: Rid)
    requires SerialReachable(h, w) && Lasting(h, w, slot, events) && LooksUp(h, w, slot, events, rid)
    requires var input := After(h, w, events).requests[rid].input; input.Success? && !SameRequest(h, w.records[slot], input)
    ensures var later := After(h, w, events);
      OnLookup(h, later, later.requests[rid]) == Done(Conflict) <==> w.records[slot].status == Completed
  {
    LastingStays(h, w, slot, events);
    if w.records[slot].status == Status.Failed { ValidationFailureIsReplayed(h, w, slot, events, rid); }
  }

  /** Under injective digests the stored fingerprint matches exactly the same upload: same
      bytes, filename and media type. */
  lemma FingerprintIdentifiesUpload(h: Digests, u: Upload, v: Upload)
    requires Injective(h) && forall a, b :: h.text(a) == h.text(b) ==> a == b
    requires |h.content(u.data)| == 64 == |h.content(v.data)| && ';' !in u.mediaType && ';' !in v.mediaType
    ensures Fingerprint(h, u) == Fingerprint(h, v) <==> u == v
  {
    N.FingerprintIsInjective(h.text,
      N.Request(h.content(u.data), u.filename, u.mediaType, |u.data|),
      N.Request(h.content(v.data), v.filename, v.mediaType, |v.data|));
  }
}
