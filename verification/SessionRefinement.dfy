/** The two tables implement one slot per session: a current secret, the secrets spent
    so far and a dead flag. */
module SessionRefinement {
  import opened Common
  import opened SessionRecords
  import opened SessionTables
  import opened SessionLifecycle
  import opened SessionRuns
  import opened SessionInvariants
  import opened SessionChain

  datatype Slot = Slot(
    user: Uuid, current: Digest, spent: set<Digest>, dead: bool, secretExpires: Instant, sessionExpires: Instant)

  /** A refresh that has read the current secret and may still win or lose. */
  datatype Ticket = Ticket(sid: Uuid, presented: Digest, next: Digest, expires: Instant)

  datatype Machine = Machine(slots: map<Uuid, Slot>, clock: Instant, tickets: map<nat, Ticket>)

  // ---------- the abstract machine ----------

  ghost predicate SpentIn(m: Machine, digest: Digest, sid: Uuid) {
    sid in m.slots && digest in m.slots[sid].spent
  }

  ghost predicate CurrentIn(m: Machine, digest: Digest, sid: Uuid) {
    sid in m.slots && m.slots[sid].current == digest
  }

  ghost function Present(m: Machine, policy: Policy, e: Event): (Machine, Outcome)
    requires e.Read?
  {
    if exists sid :: SpentIn(m, e.presented, sid) then
      var sid :| SpentIn(m, e.presented, sid);
      (m.(slots := m.slots[sid := m.slots[sid].(dead := true)]), Replayed)
    else if exists sid :: CurrentIn(m, e.presented, sid) then
      var sid :| CurrentIn(m, e.presented, sid);
      var slot := m.slots[sid];
      if slot.dead then (m, Rejected(InvalidRefreshToken))
      else if m.clock >= slot.secretExpires then (m, Rejected(ExpiredRefreshToken))
      else
        var ticket := Ticket(sid, e.presented, e.newDigest, Min(m.clock + policy.refreshLifetime, slot.sessionExpires));
        (m.(tickets := m.tickets[e.request := ticket]), Prepares)
    else (m, Rejected(InvalidRefreshToken))
  }

  function Redeem(m: Machine, request: nat): (Machine, Outcome)
    requires request in m.tickets
  {
    var ticket := m.tickets[request];
    var rest := m.(tickets := m.tickets - {request});
    if ticket.sid in m.slots && m.slots[ticket.sid].current == ticket.presented && !m.slots[ticket.sid].dead then
      var slot := m.slots[ticket.sid];
      (rest.(slots := m.slots[ticket.sid := slot.(current := ticket.next, spent := slot.spent + {ticket.presented},
                                                 secretExpires := ticket.expires)]),
       Rotated)
    else (rest, Rejected(Store(StaleRotation)))
  }

  function LiveOf(m: Machine, user: Uuid): set<Uuid> {
    set sid | sid in m.slots && m.slots[sid].user == user && !m.slots[sid].dead
  }

  function KillAll(slots: map<Uuid, Slot>, sids: set<Uuid>): map<Uuid, Slot> {
    map sid | sid in slots :: if sid in sids then slots[sid].(dead := true) else slots[sid]
  }

  ghost function AbstractStep(m: Machine, policy: Policy, e: Event): (Machine, Outcome)
    requires e.Commit? ==> e.request in m.tickets
    requires !e.Clean?
  {
    match e
    case Tick(seconds) => (m.(clock := m.clock + seconds), Ticked)
    case Login(user, sid, _, _, digest) =>
      (m.(slots := m.slots[sid := Slot(user, digest, {}, false, m.clock + policy.refreshLifetime, m.clock + policy.sessionLifetime)]),
       LoggedIn)
    case Read(_, _, _, _) => Present(m, policy, e)
    case Commit(request) => Redeem(m, request)
    case Logout(user, sid) =>
      if sid !in m.slots then (m, Rejected(SessionNotFound))
      else if m.slots[sid].user != user then (m, Rejected(SessionOwnership))
      else (m.(slots := m.slots[sid := m.slots[sid].(dead := true)]), LoggedOut)
    case LogoutAll(user) => (m.(slots := KillAll(m.slots, LiveOf(m, user))), LoggedOutAll(|LiveOf(m, user)|))
    case Verify(user, sid) =>
      if sid in m.slots && !m.slots[sid].dead && m.clock < m.slots[sid].sessionExpires && m.slots[sid].user == user
      then (m, Verified) else (m, Rejected(InvalidAccessToken))
  }

  // ---------- the abstraction ----------

  ghost predicate AllPresent(t: Tables, ids: seq<Uuid>) {
    forall i :: 0 <= i < |ids| ==> ids[i] in t.tokens
  }

  ghost function SpentDigests(t: Tables, ids: seq<Uuid>): set<Digest>
    requires AllPresent(t, ids)
  {
    set i | 0 <= i < |ids| - 1 :: t.tokens[ids[i]].digest
  }

  ghost function SlotOf(t: Tables, sid: Uuid, ids: seq<Uuid>): Slot
    requires sid in t.sessions && |ids| > 0 && AllPresent(t, ids)
  {
    var newest := t.tokens[ids[|ids| - 1]];
    Slot(t.sessions[sid].user, newest.digest, SpentDigests(t, ids), t.sessions[sid].revokedAt.Some?,
         newest.expiresAt, t.sessions[sid].expiresAt)
  }

  ghost predicate Abstractable(w: World) {
    w.history.lineage.Keys == w.db.sessions.Keys
    && forall sid :: sid in w.db.sessions ==> |w.history.lineage[sid]| > 0 && AllPresent(w.db, w.history.lineage[sid])
  }

  function TicketOf(p: Prepared): Ticket {
    Ticket(p.session.id, p.current.digest, p.replacement.digest, p.replacement.expiresAt)
  }

  ghost function Abs(w: World): Machine
    requires Abstractable(w)
  {
    Machine(map sid | sid in w.db.sessions :: SlotOf(w.db, sid, w.history.lineage[sid]),
            w.clock,
            map r | r in w.pending :: TicketOf(w.pending[r]))
  }

  /** What a run without cleanup keeps. */
  ghost predicate Sound(w: World, policy: Policy) {
    Inv(w) && Chained(w) && ExpiriesExact(w, policy)
  }

  lemma ChainedAbstractable(w: World)
    requires Chained(w)
    ensures Abstractable(w)
  {
    forall sid | sid in w.db.sessions ensures AllPresent(w.db, w.history.lineage[sid]) {
      var ids := w.history.lineage[sid];
      forall i | 0 <= i < |ids| ensures ids[i] in w.db.tokens { assert Link(w.db, sid, ids, i); }
    }
  }

  lemma SoundStep(w: World, policy: Policy, auditing: bool, e: Event)
    requires Sound(w, policy) && policy.Valid() && Enabled(w, e) && !e.Clean?
    ensures Sound(Step(w, policy, auditing, e).0, policy)
    ensures Abstractable(w) && Abstractable(Step(w, policy, auditing, e).0)
  {
    StepKeepsInv(w, policy, auditing, e);
    StepKeepsChained(w, policy, auditing, e);
    StepKeepsExpiries(w, policy, auditing, e);
    ChainedAbstractable(w);
    ChainedAbstractable(Step(w, policy, auditing, e).0);
  }

  // ---------- where a digest stands ----------

  lemma LinkDigestsDiffer(t: Tables, sid: Uuid, ids: seq<Uuid>, i: nat)
    requires Consistent(t) && Chain(t, sid, ids) && i < |ids|
    ensures forall j :: 0 <= j < |ids| ==> ids[i] in t.tokens && ids[j] in t.tokens && (t.tokens[ids[j]].digest == t.tokens[ids[i]].digest ==> j == i)
  {
    forall j | 0 <= j < |ids| ensures ids[i] in t.tokens && ids[j] in t.tokens && (t.tokens[ids[j]].digest == t.tokens[ids[i]].digest ==> j == i) {
      assert Link(t, sid, ids, j) && Link(t, sid, ids, i);
    }
  }

  /** The row of link i decides whether its digest is the current or a spent secret. */
  lemma DigestOfLink(w: World, sid: Uuid, i: nat)
    requires Consistent(w.db) && Chained(w) && Abstractable(w) && sid in w.db.sessions && i < |w.history.lineage[sid]|
    ensures var token := w.db.tokens[w.history.lineage[sid][i]];
      && token.session == sid
      && (SpentIn(Abs(w), token.digest, sid) <==> token.IsSpent())
      && (CurrentIn(Abs(w), token.digest, sid) <==> !token.IsSpent())
      && (token.IsSpent() <==> i + 1 < |w.history.lineage[sid]|)
      && (!token.IsSpent() ==> (token.revokedAt.Some? <==> w.db.sessions[sid].revokedAt.Some?))
  {
    var ids := w.history.lineage[sid];
    var token := w.db.tokens[ids[i]];
    assert Link(w.db, sid, ids, i);
    var n := |ids| - 1;
    assert Link(w.db, sid, ids, n);
    LinkDigestsDiffer(w.db, sid, ids, i);
    if i < n { assert token.digest in SpentDigests(w.db, ids); }
  }

  /** A digest known to the machine belongs to exactly one session, that of its row. */
  lemma DigestHome(w: World, policy: Policy, digest: Digest, sid: Uuid) returns (id: Uuid)
    requires Sound(w, policy) && Abstractable(w)
    requires SpentIn(Abs(w), digest, sid) || CurrentIn(Abs(w), digest, sid)
    ensures id in w.db.tokens && w.db.tokens[id].digest == digest && w.db.tokens[id].session == sid
  {
    var ids := w.history.lineage[sid];
    if SpentIn(Abs(w), digest, sid) {
      var i :| 0 <= i < |ids| - 1 && w.db.tokens[ids[i]].digest == digest;
      assert Link(w.db, sid, ids, i);
      id := ids[i];
    } else {
      assert Link(w.db, sid, ids, |ids| - 1);
      id := ids[|ids| - 1];
    }
  }

  lemma LinkIndex(w: World, policy: Policy, id: Uuid) returns (i: nat)
    requires Sound(w, policy) && Abstractable(w) && id in w.db.tokens
    ensures w.db.tokens[id].session in w.db.sessions
    ensures i < |w.history.lineage[w.db.tokens[id].session]| && w.history.lineage[w.db.tokens[id].session][i] == id
  {
    var sid := w.db.tokens[id].session;
    assert Chain(w.db, sid, w.history.lineage[sid]);
    i :| 0 <= i < |w.history.lineage[sid]| && w.history.lineage[sid][i] == id;
  }

  // ---------- how slots move ----------

  lemma SlotsAre(w: World, slots: map<Uuid, Slot>)
    requires Abstractable(w) && slots.Keys == w.db.sessions.Keys
    requires forall sid :: sid in slots ==> slots[sid] == SlotOf(w.db, sid, w.history.lineage[sid])
    ensures Abs(w).slots == slots
  {
  }

  lemma UntouchedSlot(t: Tables, after: Tables, sid: Uuid, ids: seq<Uuid>)
    requires |ids| > 0 && AllPresent(t, ids) && sid in t.sessions && sid in after.sessions
    requires forall i :: 0 <= i < |ids| ==>
      && ids[i] in after.tokens && after.tokens[ids[i]].digest == t.tokens[ids[i]].digest
      && after.tokens[ids[i]].expiresAt == t.tokens[ids[i]].expiresAt
    requires after.sessions[sid] == t.sessions[sid]
    ensures AllPresent(after, ids) && SlotOf(after, sid, ids) == SlotOf(t, sid, ids)
  {
    SameSecrets(t, after, sid, ids);
  }

  lemma SameSecrets(t: Tables, after: Tables, sid: Uuid, ids: seq<Uuid>)
    requires |ids| > 0 && AllPresent(t, ids) && AllPresent(after, ids) && sid in t.sessions && sid in after.sessions
    requires forall i :: 0 <= i < |ids| ==>
      after.tokens[ids[i]].digest == t.tokens[ids[i]].digest && after.tokens[ids[i]].expiresAt == t.tokens[ids[i]].expiresAt
    requires after.sessions[sid].user == t.sessions[sid].user && after.sessions[sid].expiresAt == t.sessions[sid].expiresAt
    ensures SlotOf(after, sid, ids) == SlotOf(t, sid, ids).(dead := after.sessions[sid].revokedAt.Some?)
  {
    assert SpentDigests(after, ids) == SpentDigests(t, ids);
  }

  /** Revoking a set of sessions kills exactly their slots. */
  lemma RevokingKillsSlots(w: World, sids: set<Uuid>, next: World)
    requires Abstractable(w)
    requires next.db.tokens == RevokeTokens(w.db.tokens, sids, w.clock)
    requires next.db.sessions.Keys == w.db.sessions.Keys
    requires forall sid :: sid in w.db.sessions ==>
      && next.db.sessions[sid].expiresAt == w.db.sessions[sid].expiresAt
      && next.db.sessions[sid].user == w.db.sessions[sid].user
      && (next.db.sessions[sid].revokedAt.Some? <==> (sid in sids || w.db.sessions[sid].revokedAt.Some?))
    requires next.history == w.history
    ensures Abstractable(next) && Abs(next).slots == KillAll(Abs(w).slots, sids)
  {
    forall sid | sid in w.db.sessions
      ensures AllPresent(next.db, w.history.lineage[sid])
      ensures SlotOf(next.db, sid, w.history.lineage[sid])
           == var slot := SlotOf(w.db, sid, w.history.lineage[sid]); if sid in sids then slot.(dead := true) else slot
    {
      assert AllPresent(w.db, w.history.lineage[sid]);
      assert AllPresent(next.db, w.history.lineage[sid]);
      SameSecrets(w.db, next.db, sid, w.history.lineage[sid]);
    }
  }

  lemma KillOne(slots: map<Uuid, Slot>, sid: Uuid)
    requires sid in slots
    ensures KillAll(slots, {sid}) == slots[sid := slots[sid].(dead := true)]
  {
  }

  // ---------- one step at a time ----------

  lemma RefinesRead(w: World, policy: Policy, auditing: bool, e: Event)
    requires Sound(w, policy) && policy.Valid() && e.Read? && Enabled(w, e) && Abstractable(w)
    requires Abstractable(StepRead(w, policy, auditing, e).0)
    ensures var (next, o) := StepRead(w, policy, auditing, e);
      Present(Abs(w), policy, e) == (Abs(next), o)
  {
    var (next, o) := StepRead(w, policy, auditing, e);
    if HasDigest(w.db, e.presented) {
      var id :| id in w.db.tokens && w.db.tokens[id].digest == e.presented;
      HomeIsUnique(w, policy, id);
      RefinesReadOf(w, policy, auditing, e, id);
    } else {
      forall sid ensures !SpentIn(Abs(w), e.presented, sid) && !CurrentIn(Abs(w), e.presented, sid) {
        if SpentIn(Abs(w), e.presented, sid) || CurrentIn(Abs(w), e.presented, sid) {
          var id := DigestHome(w, policy, e.presented, sid);
        }
      }
    }
  }

  lemma RefinesReplay(w: World, policy: Policy, auditing: bool, e: Event, id: Uuid)
    requires RowsKnown(w) && policy.Valid() && e.Read? && Enabled(w, e) && Abstractable(w)
    requires id in w.db.tokens && w.db.tokens[id].digest == e.presented && w.db.tokens[id].IsSpent()
    ensures var (next, o) := StepRead(w, policy, auditing, e);
      && o == Replayed && Abstractable(next)
      && Abs(next) == Abs(w).(slots := KillAll(Abs(w).slots, {w.db.tokens[id].session}))
  {
    var (next, o) := StepRead(w, policy, auditing, e);
    FindByDigestIs(w.db, id);
    var home := w.db.tokens[id].session;
    RevokeSessionKeepsRows(w, home);
    assert next.db == RevokeSession(w.db, home, w.clock).value;
    RevokingKillsSlots(w, {home}, next);
  }

  /** Only the row's own session knows the digest. */
  lemma HomeIsUnique(w: World, policy: Policy, id: Uuid)
    requires Sound(w, policy) && Abstractable(w) && id in w.db.tokens
    ensures var token := w.db.tokens[id];
      && (forall sid :: SpentIn(Abs(w), token.digest, sid) <==> sid == token.session && token.IsSpent())
      && (forall sid :: CurrentIn(Abs(w), token.digest, sid) <==> sid == token.session && !token.IsSpent())
      && token.session in w.db.sessions
      && (!token.IsSpent() ==>
            && (token.revokedAt.Some? <==> w.db.sessions[token.session].revokedAt.Some?)
            && Abs(w).slots[token.session].secretExpires == token.expiresAt)
  {
    var token := w.db.tokens[id];
    var i := LinkIndex(w, policy, id);
    DigestOfLink(w, token.session, i);
    forall sid | SpentIn(Abs(w), token.digest, sid) || CurrentIn(Abs(w), token.digest, sid) ensures sid == token.session {
      var other := DigestHome(w, policy, token.digest, sid);
      assert other == id;
    }
  }

  lemma RefinesReadOf(w: World, policy: Policy, auditing: bool, e: Event, id: Uuid)
    requires RowsKnown(w) && ExpiriesExact(w, policy) && policy.Valid() && e.Read? && Enabled(w, e) && Abstractable(w)
    requires id in w.db.tokens && w.db.tokens[id].digest == e.presented
    requires var token := w.db.tokens[id];
      && (forall sid :: SpentIn(Abs(w), token.digest, sid) <==> sid == token.session && token.IsSpent())
      && (forall sid :: CurrentIn(Abs(w), token.digest, sid) <==> sid == token.session && !token.IsSpent())
      && token.session in w.db.sessions
      && (!token.IsSpent() ==>
            && (token.revokedAt.Some? <==> w.db.sessions[token.session].revokedAt.Some?)
            && Abs(w).slots[token.session].secretExpires == token.expiresAt)
    ensures var (next, o) := StepRead(w, policy, auditing, e);
      Abstractable(next) && Present(Abs(w), policy, e) == (Abs(next), o)
  {
    if w.db.tokens[id].IsSpent() {
      RefinesReadSpent(w, policy, auditing, e, id);
    } else {
      assert ExpiryExact(w.db.tokens[id], w.db.sessions[w.db.tokens[id].session], policy);
      PresentCurrent(Abs(w), policy, e, w.db.tokens[id].session);
      RefinesCurrent(w, policy, auditing, e, id);
    }
  }

  lemma RefinesReadSpent(w: World, policy: Policy, auditing: bool, e: Event, id: Uuid)
    requires RowsKnown(w) && policy.Valid() && e.Read? && Enabled(w, e) && Abstractable(w)
    requires id in w.db.tokens && w.db.tokens[id].digest == e.presented && w.db.tokens[id].IsSpent()
    requires forall sid :: SpentIn(Abs(w), e.presented, sid) <==> sid == w.db.tokens[id].session
    ensures var (next, o) := StepRead(w, policy, auditing, e);
      Abstractable(next) && Present(Abs(w), policy, e) == (Abs(next), o)
  {
    RefinesReplay(w, policy, auditing, e, id);
    PresentSpent(Abs(w), policy, e, w.db.tokens[id].session);
  }

  /** What presenting the current secret of slot `home` does to the machine. */
  function PresentedCurrent(m: Machine, policy: Policy, e: Event, home: Uuid): (Machine, Outcome)
    requires e.Read? && home in m.slots
  {
    var slot := m.slots[home];
    if slot.dead then (m, Rejected(InvalidRefreshToken))
    else if m.clock >= slot.secretExpires then (m, Rejected(ExpiredRefreshToken))
    else
      (m.(tickets := m.tickets[e.request :=
         Ticket(home, e.presented, e.newDigest, Min(m.clock + policy.refreshLifetime, slot.sessionExpires))]), Prepares)
  }

  lemma PresentSpent(m: Machine, policy: Policy, e: Event, home: Uuid)
    requires e.Read? && forall sid :: SpentIn(m, e.presented, sid) <==> sid == home
    ensures home in m.slots
    ensures Present(m, policy, e) == (m.(slots := KillAll(m.slots, {home})), Replayed)
  {
    assert SpentIn(m, e.presented, home);
    KillOne(m.slots, home);
  }

  lemma PresentCurrent(m: Machine, policy: Policy, e: Event, home: Uuid)
    requires e.Read? && (forall sid :: !SpentIn(m, e.presented, sid))
    requires forall sid :: CurrentIn(m, e.presented, sid) <==> sid == home
    ensures home in m.slots
    ensures Present(m, policy, e) == PresentedCurrent(m, policy, e, home)
  {
    assert CurrentIn(m, e.presented, home);
  }

  lemma RefinesCurrent(w: World, policy: Policy, auditing: bool, e: Event, id: Uuid)
    requires Consistent(w.db) && policy.Valid() && e.Read? && Enabled(w, e) && Abstractable(w)
    requires id in w.db.tokens && w.db.tokens[id].digest == e.presented && !w.db.tokens[id].IsSpent()
    requires w.db.tokens[id].session in w.db.sessions
    requires w.db.tokens[id].revokedAt.Some? <==> w.db.sessions[w.db.tokens[id].session].revokedAt.Some?
    requires w.db.tokens[id].expiresAt <= w.db.sessions[w.db.tokens[id].session].expiresAt
    requires Abs(w).slots[w.db.tokens[id].session].secretExpires == w.db.tokens[id].expiresAt
    ensures var (next, o) := StepRead(w, policy, auditing, e);
      Abstractable(next) && (Abs(next), o) == PresentedCurrent(Abs(w), policy, e, w.db.tokens[id].session)
  {
    var (next, o) := StepRead(w, policy, auditing, e);
    ReadyIff(w.db, policy, e.presented, w.clock, e.newId, e.newDigest, id);
    FindByDigestIs(w.db, id);
    if o == Prepares {
      AddedTicket(w, next, e.request);
    }
  }

  lemma AddedTicket(w: World, next: World, request: nat)
    requires Abstractable(w) && next.db == w.db && next.clock == w.clock && next.history.lineage == w.history.lineage
    requires request in next.pending && next.pending == w.pending[request := next.pending[request]]
    ensures Abstractable(next)
    ensures Abs(next) == Abs(w).(tickets := Abs(w).tickets[request := TicketOf(next.pending[request])])
  {
    SlotsAre(next, Abs(w).slots);
  }

  lemma RefinesCommit(w: World, policy: Policy, auditing: bool, request: nat)
    requires Sound(w, policy) && policy.Valid() && request in w.pending && Abstractable(w)
    requires Abstractable(StepCommit(w, auditing, request).0)
    ensures request in Abs(w).tickets
    ensures var (next, o) := StepCommit(w, auditing, request);
      Redeem(Abs(w), request) == (Abs(next), o)
  {
    var p := w.pending[request];
    TicketIsCurrent(w, policy, request);
    if RefreshCommit(w.db, p).Success? {
      RotatedSessionChain(w, policy, request);
    }
    CommitAbstracted(w, auditing, request);
  }

  lemma CommitAbstracted(w: World, auditing: bool, request: nat)
    requires request in w.pending && Abstractable(w) && Abstractable(StepCommit(w, auditing, request).0)
    requires var p := w.pending[request];
      && p.session.id in w.db.sessions && p.current.id in w.db.tokens
      && w.db.tokens[p.current.id].digest == p.current.digest
      && var ids := w.history.lineage[p.session.id];
      && (RefreshCommit(w.db, p).Success? <==>
            Abs(w).slots[p.session.id].current == p.current.digest && w.db.sessions[p.session.id].revokedAt.None?)
      && (RefreshCommit(w.db, p).Failure? ==> RefreshCommit(w.db, p) == Failure(Store(StaleRotation)))
      && (RefreshCommit(w.db, p).Success? ==>
            && p.current.id == ids[|ids| - 1] && p.replacement.id !in w.db.tokens
            && RefreshCommit(w.db, p).value == AfterRotation(w.db, p))
    ensures request in Abs(w).tickets
    ensures var (next, o) := StepCommit(w, auditing, request);
      Redeem(Abs(w), request) == (Abs(next), o)
  {
    var (next, o) := StepCommit(w, auditing, request);
    assert Abs(next).tickets == Abs(w).tickets - {request};
    if o == Rotated {
      RotatedSlots(w, w.pending[request], next);
    } else {
      SlotsAre(next, Abs(w).slots);
    }
  }

  /** The ticket holds the slot's current secret exactly when the request read the newest link. */
  lemma TicketIsCurrent(w: World, policy: Policy, request: nat)
    requires Sound(w, policy) && request in w.pending && Abstractable(w)
    ensures var p := w.pending[request];
      && p.session.id in w.db.sessions && p.current.id in w.db.tokens
      && w.db.tokens[p.current.id].digest == p.current.digest
      && var ids := w.history.lineage[p.session.id];
      && (Abs(w).slots[p.session.id].current == p.current.digest <==> p.current.id == ids[|ids| - 1])
      && (RefreshCommit(w.db, p).Success? <==>
            p.current.id == ids[|ids| - 1] && w.db.sessions[p.session.id].revokedAt.None?)
      && (RefreshCommit(w.db, p).Failure? ==> RefreshCommit(w.db, p) == Failure(Store(StaleRotation)))
  {
    var p := w.pending[request];
    CommitWinsIffNewest(w, request);
    assert PreparedFits(w, p);
    assert w.db.tokens[p.current.id].SameCredential(p.current);
    assert Link(w.db, p.session.id, w.history.lineage[p.session.id], |w.history.lineage[p.session.id]| - 1);
  }

  lemma RotatedSlots(w: World, p: Prepared, next: World)
    requires Abstractable(w) && Abstractable(next)
    requires p.current.id in w.db.tokens && p.replacement.id !in w.db.tokens && next.db == AfterRotation(w.db, p)
    requires p.session.id in w.db.sessions && next.history.lineage == Extend(w.history.lineage, p.session.id, p.replacement.id)
    requires var ids := w.history.lineage[p.session.id]; p.current.id == ids[|ids| - 1]
    requires w.db.tokens[p.current.id].digest == p.current.digest
    ensures var slot := Abs(w).slots[p.session.id];
      Abs(next).slots == Abs(w).slots[p.session.id :=
        slot.(current := p.replacement.digest, spent := slot.spent + {p.current.digest}, secretExpires := p.replacement.expiresAt)]
  {
    var slot := Abs(w).slots[p.session.id];
    var slots := Abs(w).slots[p.session.id :=
        slot.(current := p.replacement.digest, spent := slot.spent + {p.current.digest}, secretExpires := p.replacement.expiresAt)];
    forall sid | sid in slots ensures slots[sid] == SlotOf(next.db, sid, next.history.lineage[sid]) {
      if sid == p.session.id {
        RotatedSlot(w.db, p, w.history.lineage[sid]);
      } else {
        RotationLeavesSlot(w.db, p, sid, w.history.lineage[sid]);
      }
    }
    SlotsAre(next, slots);
  }

  lemma RotationLeavesSlot(t: Tables, p: Prepared, sid: Uuid, ids: seq<Uuid>)
    requires |ids| > 0 && AllPresent(t, ids) && p.replacement.id !in t.tokens && p.current.id in t.tokens && sid in t.sessions
    ensures AllPresent(AfterRotation(t, p), ids) && SlotOf(AfterRotation(t, p), sid, ids) == SlotOf(t, sid, ids)
  {
    UntouchedSlot(t, AfterRotation(t, p), sid, ids);
  }

  lemma RotatedSlot(t: Tables, p: Prepared, ids: seq<Uuid>)
    requires |ids| > 0 && AllPresent(t, ids) && p.replacement.id !in t.tokens && p.current.id == ids[|ids| - 1]
    requires t.tokens[p.current.id].digest == p.current.digest && p.session.id in t.sessions
    ensures var slot := SlotOf(t, p.session.id, ids);
      var more := ids + [p.replacement.id];
      && AllPresent(AfterRotation(t, p), more)
      && SlotOf(AfterRotation(t, p), p.session.id, more)
         == slot.(current := p.replacement.digest, spent := slot.spent + {p.current.digest}, secretExpires := p.replacement.expiresAt)
  {
    RotatedSpent(t, p, ids);
  }

  lemma RotatedSpent(t: Tables, p: Prepared, ids: seq<Uuid>)
    requires |ids| > 0 && AllPresent(t, ids) && p.replacement.id !in t.tokens && p.current.id == ids[|ids| - 1]
    requires t.tokens[p.current.id].digest == p.current.digest
    ensures var after := AfterRotation(t, p);
      && AllPresent(after, ids + [p.replacement.id])
      && SpentDigests(after, ids + [p.replacement.id]) == SpentDigests(t, ids) + {p.current.digest}
  {
    var after := AfterRotation(t, p);
    var more := ids + [p.replacement.id];
    assert AllPresent(after, more);
    forall i | 0 <= i < |ids| ensures after.tokens[more[i]].digest == t.tokens[ids[i]].digest {}
    forall d | d in SpentDigests(t, ids) + {p.current.digest} ensures d in SpentDigests(after, more) {
      if d in SpentDigests(t, ids) {
        var i :| 0 <= i < |ids| - 1 && t.tokens[ids[i]].digest == d;
        assert after.tokens[more[i]].digest == d;
      } else {
        assert after.tokens[more[|ids| - 1]].digest == d;
      }
    }
  }

  lemma LiveAreUnrevoked(w: World, user: Uuid)
    requires Abstractable(w)
    ensures LiveOf(Abs(w), user) == UnrevokedOf(w.db, user)
  {
  }

  lemma LogoutKills(w: World, auditing: bool, user: Uuid, sid: Uuid)
    requires RowsKnown(w) && Abstractable(w) && sid in w.db.sessions && w.db.sessions[sid].user == user
    ensures var (next, o) := StepLogout(w, auditing, user, sid);
      && o == LoggedOut && Abstractable(next)
      && Abs(next) == Abs(w).(slots := KillAll(Abs(w).slots, {sid}))
  {
    RevokeSessionKeepsRows(w, sid);
    RevokingKillsSlots(w, {sid}, StepLogout(w, auditing, user, sid).0);
  }

  lemma RefinesLogout(w: World, policy: Policy, auditing: bool, user: Uuid, sid: Uuid)
    requires RowsKnown(w) && Abstractable(w)
    ensures var (next, o) := StepLogout(w, auditing, user, sid);
      Abstractable(next) && AbstractStep(Abs(w), policy, Logout(user, sid)) == (Abs(next), o)
  {
    if sid in w.db.sessions && w.db.sessions[sid].user == user {
      LogoutKills(w, auditing, user, sid);
      KillOne(Abs(w).slots, sid);
    }
  }

  lemma RefinesLogoutAll(w: World, policy: Policy, auditing: bool, user: Uuid)
    requires Abstractable(w)
    ensures var (next, o) := StepLogoutAll(w, auditing, user);
      Abstractable(next) && AbstractStep(Abs(w), policy, LogoutAll(user)) == (Abs(next), o)
  {
    LiveAreUnrevoked(w, user);
    RevokingKillsSlots(w, UnrevokedOf(w.db, user), StepLogoutAll(w, auditing, user).0);
  }

  lemma AddedSlot(w: World, next: World, sid: Uuid, token: RefreshToken)
    requires Abstractable(w) && sid !in w.db.sessions && token.id !in w.db.tokens && sid in next.db.sessions
    requires next.db == Tables(w.db.sessions[sid := next.db.sessions[sid]], w.db.tokens[token.id := token])
    requires next.history.lineage == w.history.lineage[sid := [token.id]]
    ensures Abstractable(next)
    ensures Abs(next).slots == Abs(w).slots[sid :=
      Slot(next.db.sessions[sid].user, token.digest, {}, next.db.sessions[sid].revokedAt.Some?, token.expiresAt, next.db.sessions[sid].expiresAt)]
  {
    assert SpentDigests(next.db, [token.id]) == {};
    var slots := Abs(w).slots[sid :=
      Slot(next.db.sessions[sid].user, token.digest, {}, next.db.sessions[sid].revokedAt.Some?, token.expiresAt, next.db.sessions[sid].expiresAt)];
    forall other | other in next.db.sessions
      ensures |next.history.lineage[other]| > 0 && AllPresent(next.db, next.history.lineage[other])
      ensures SlotOf(next.db, other, next.history.lineage[other]) == slots[other]
    {
      if other != sid {
        var ids := w.history.lineage[other];
        assert AllPresent(w.db, ids);
        UntouchedSlot(w.db, next.db, other, ids);
      }
    }
    SlotsAre(next, slots);
  }

  lemma RefinesLogin(w: World, policy: Policy, auditing: bool, e: Event)
    requires RowsKnown(w) && policy.Valid() && e.Login? && Enabled(w, e) && Abstractable(w)
    ensures var (next, o) := StepLogin(w, policy, auditing, e);
      Abstractable(next) && AbstractStep(Abs(w), policy, e) == (Abs(next), o)
  {
    LoginAdds(w, policy, auditing, e);
    var (next, o) := StepLogin(w, policy, auditing, e);
    AddedSlot(w, next, e.sid, next.db.tokens[e.tokenId]);
  }

  lemma RefinesQuiet(w: World, policy: Policy, auditing: bool, e: Event)
    requires Abstractable(w) && Enabled(w, e) && (e.Tick? || e.Verify?)
    ensures var (next, o) := Step(w, policy, auditing, e);
      Abstractable(next) && AbstractStep(Abs(w), policy, e) == (Abs(next), o)
  {
    var next := Step(w, policy, auditing, e).0;
    assert Abs(next).slots == Abs(w).slots;
    assert Abs(next).tickets == Abs(w).tickets;
  }

  /** Main result: every step maps to the abstract step of the same event with the same outcome. */
  lemma StepRefines(w: World, policy: Policy, auditing: bool, e: Event)
    requires Sound(w, policy) && policy.Valid() && Enabled(w, e) && !e.Clean?
    ensures var (next, o) := Step(w, policy, auditing, e);
      && Sound(next, policy) && Abstractable(w) && Abstractable(next)
      && (e.Commit? ==> e.request in Abs(w).tickets)
      && AbstractStep(Abs(w), policy, e) == (Abs(next), o)
  {
    SoundStep(w, policy, auditing, e);
    match e
    case Login(_, _, _, _, _) => RefinesLogin(w, policy, auditing, e);
    case Read(_, _, _, _) => RefinesRead(w, policy, auditing, e);
    case Commit(request) => RefinesCommit(w, policy, auditing, request);
    case Logout(user, sid) => RefinesLogout(w, policy, auditing, user, sid);
    case LogoutAll(user) => RefinesLogoutAll(w, policy, auditing, user);
    case _ => RefinesQuiet(w, policy, auditing, e);
  }

  ghost predicate AbstractPossible(m: Machine, policy: Policy, es: seq<Event>)
    decreases |es|
  {
    es == [] ||
    (!es[0].Clean? && (es[0].Commit? ==> es[0].request in m.tickets)
     && AbstractPossible(AbstractStep(m, policy, es[0]).0, policy, es[1..]))
  }

  ghost function AbstractOutcomes(m: Machine, policy: Policy, es: seq<Event>): seq<Outcome>
    requires AbstractPossible(m, policy, es)
    decreases |es|
  {
    if es == [] then []
    else [AbstractStep(m, policy, es[0]).1] + AbstractOutcomes(AbstractStep(m, policy, es[0]).0, policy, es[1..])
  }

  /** A caller of the tables sees exactly what a caller of the slots would see. */
  lemma {:induction false} RunRefines(w: World, policy: Policy, auditing: bool, es: seq<Event>)
    requires Sound(w, policy) && policy.Valid() && Possible(w, policy, auditing, es) && WithoutCleanup(es)
    ensures Abstractable(w) && AbstractPossible(Abs(w), policy, es)
    ensures Outcomes(w, policy, auditing, es) == AbstractOutcomes(Abs(w), policy, es)
    decreases |es|
  {
    ChainedAbstractable(w);
    if es != [] {
      assert !es[0].Clean?;
      StepRefines(w, policy, auditing, es[0]);
      RunRefines(Step(w, policy, auditing, es[0]).0, policy, auditing, es[1..]);
    }
  }
}
