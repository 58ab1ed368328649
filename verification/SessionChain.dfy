/** Without cleanup, the tokens of a session form one unbroken chain. */
module SessionChain {
  import opened Common
  import opened SessionRecords
  import opened SessionTables
  import opened SessionLifecycle
  import opened SessionRuns
  import opened SessionInvariants

  /** Generation i of the session is `ids[i]`; every one but the last was consumed by its successor. */
  ghost predicate Link(t: Tables, sid: Uuid, ids: seq<Uuid>, i: nat)
    requires sid in t.sessions && i < |ids|
  {
    && ids[i] in t.tokens && ids[0] in t.tokens
    && var k := t.tokens[ids[i]];
    && k.session == sid && k.generation == i && k.family == t.tokens[ids[0]].family
    && k.expiresAt <= t.sessions[sid].expiresAt
    && (i + 1 < |ids| ==>
          && ids[i + 1] in t.tokens
          && k.usedAt == Some(t.tokens[ids[i + 1]].issuedAt)
          && k.replacedBy == Some(ids[i + 1])
          && k.expiresAt <= t.tokens[ids[i + 1]].expiresAt)
    && (i + 1 == |ids| ==>
          && k.usedAt.None? && k.replacedBy.None?
          && (k.revokedAt.Some? <==> t.sessions[sid].revokedAt.Some?))
  }

  ghost predicate Chain(t: Tables, sid: Uuid, ids: seq<Uuid>) {
    && sid in t.sessions && |ids| > 0
    && (forall i :: 0 <= i < |ids| ==> Link(t, sid, ids, i))
    && (forall id :: id in t.tokens && t.tokens[id].session == sid ==> id in ids)
  }

  ghost predicate Chained(w: World) {
    && w.history.lineage.Keys == w.db.sessions.Keys
    && (forall sid :: sid in w.db.sessions ==> Chain(w.db, sid, w.history.lineage[sid]))
    && (forall r :: r in w.pending ==> w.pending[r].current.id in w.db.tokens)
  }

  /** One committed SESSION_REFRESHED entry per rotation. */
  ghost predicate RefreshesAudited(w: World) {
    forall sid :: sid in w.history.lineage ==>
      Count(w.audit, SessionRefreshed(sid)) == |w.history.lineage[sid]| - 1
  }

  ghost predicate NothingAuditedEarly(w: World) {
    forall sid :: sid !in w.history.lineage ==> Count(w.audit, SessionRefreshed(sid)) == 0
  }

  // ---------- expiries ----------

  lemma PreparingKeepsExpiries(w: World, policy: Policy, auditing: bool, e: Event, id: Uuid)
    requires Consistent(w.db) && ExpiriesExact(w, policy) && policy.Valid() && e.Read? && Enabled(w, e)
    requires id in w.db.tokens && w.db.tokens[id].digest == e.presented && w.db.tokens[id].session in w.db.sessions
    requires w.db.sessions[w.db.tokens[id].session].createdAt <= w.clock
    requires StepRead(w, policy, auditing, e).1 == Prepares
    ensures ExpiriesExact(StepRead(w, policy, auditing, e).0, policy)
  {
    ReadyIff(w.db, policy, e.presented, w.clock, e.newId, e.newDigest, id);
  }

  lemma ReadKeepsExpiries(w: World, policy: Policy, auditing: bool, e: Event)
    requires RowsKnown(w) && ExpiriesExact(w, policy) && policy.Valid() && e.Read? && Enabled(w, e)
    ensures ExpiriesExact(StepRead(w, policy, auditing, e).0, policy)
  {
    var (next, o) := StepRead(w, policy, auditing, e);
    if o == Prepares {
      var id :| id in w.db.tokens && w.db.tokens[id].digest == e.presented;
      PreparingKeepsExpiries(w, policy, auditing, e, id);
    } else if o == Replayed {
      ReplayKeepsRows(w, policy, auditing, e);
      LifecycleKeepsExpiries(w, next, policy);
    }
  }

  lemma CommitKeepsExpiries(w: World, policy: Policy, auditing: bool, request: nat)
    requires Inv(w) && ExpiriesExact(w, policy) && policy.Valid() && request in w.pending
    ensures ExpiriesExact(StepCommit(w, auditing, request).0, policy)
  {
    CommitRotates(w, request);
    assert PreparedFits(w, w.pending[request]);
  }

  lemma LoginKeepsExpiries(w: World, policy: Policy, auditing: bool, e: Event)
    requires RowsKnown(w) && EachFits(w) && ExpiriesExact(w, policy) && policy.Valid() && e.Login? && Enabled(w, e)
    ensures ExpiriesExact(StepLogin(w, policy, auditing, e).0, policy)
  {
    LoginAdds(w, policy, auditing, e);
    forall r | r in w.pending ensures w.pending[r].session.id != e.sid { assert PreparedFits(w, w.pending[r]); }
    assert forall id :: id in w.db.tokens ==> w.db.tokens[id].session != e.sid;
    AddingKeepsExpiries(w, StepLogin(w, policy, auditing, e).0, policy, e.sid, e.tokenId);
  }

  lemma AddingKeepsExpiries(w: World, next: World, policy: Policy, sid: Uuid, id: Uuid)
    requires ExpiriesExact(w, policy) && next.pending == w.pending
    requires next.db.sessions.Keys == w.db.sessions.Keys + {sid} && next.db.tokens.Keys == w.db.tokens.Keys + {id}
    requires forall x :: x in w.db.sessions && x != sid ==> next.db.sessions[x] == w.db.sessions[x]
    requires forall x :: x in w.db.tokens && x != id ==> next.db.tokens[x] == w.db.tokens[x] && w.db.tokens[x].session != sid
    requires forall r :: r in w.pending ==> w.pending[r].session.id != sid
    requires next.db.tokens[id].session == sid && ExpiryExact(next.db.tokens[id], next.db.sessions[sid], policy)
    requires next.db.sessions[sid].expiresAt == next.db.sessions[sid].createdAt + policy.sessionLifetime
    ensures ExpiriesExact(next, policy)
  {
  }

  lemma StepKeepsExpiries(w: World, policy: Policy, auditing: bool, e: Event)
    requires Inv(w) && ExpiriesExact(w, policy) && policy.Valid() && Enabled(w, e)
    ensures ExpiriesExact(Step(w, policy, auditing, e).0, policy)
  {
    var (next, o) := Step(w, policy, auditing, e);
    match e
    case Login(_, _, _, _, _) => LoginKeepsExpiries(w, policy, auditing, e);
    case Commit(request) => CommitKeepsExpiries(w, policy, auditing, request);
    case Read(_, _, _, _) => ReadKeepsExpiries(w, policy, auditing, e);
    case Logout(user, sid) =>
      if o == LoggedOut { RevokeSessionKeepsRows(w, sid); LifecycleKeepsExpiries(w, next, policy); }
    case LogoutAll(user) => RevokeAllKeepsRows(w, user); LifecycleKeepsExpiries(w, next, policy);
    case Clean(limit, expired, revoked) =>
      if o.Cleaned? {
        CleanupKeepsRows(w.db, w.clock, expired, revoked, limit);
        LifecycleKeepsExpiries(w, next, policy);
      }
    case _ =>
  }

  lemma LifecycleKeepsExpiries(w: World, next: World, policy: Policy)
    requires Consistent(w.db) && ExpiriesExact(w, policy) && OnlyLifecycleChanged(w.db, next.db) && next.pending == w.pending
    ensures ExpiriesExact(next, policy)
  {
    forall id | id in next.db.tokens
      ensures next.db.tokens[id].session in w.db.sessions
           && ExpiryExact(next.db.tokens[id], next.db.sessions[next.db.tokens[id].session], policy)
    {
      assert next.db.tokens[id].SameCredential(w.db.tokens[id]);
    }
  }

  // ---------- the chain ----------

  lemma RevokingKeepsChain(t: Tables, sids: set<Uuid>, at: Instant, sid: Uuid, ids: seq<Uuid>, after: Tables)
    requires Consistent(t) && Chain(t, sid, ids)
    requires after.tokens == RevokeTokens(t.tokens, sids, at)
    requires after.sessions.Keys == t.sessions.Keys
    requires after.sessions[sid].expiresAt == t.sessions[sid].expiresAt
    requires after.sessions[sid].revokedAt.Some? <==> (sid in sids || t.sessions[sid].revokedAt.Some?)
    ensures Chain(after, sid, ids)
  {
    forall i | 0 <= i < |ids| ensures Link(after, sid, ids, i) {
      assert Link(t, sid, ids, i);
      if i + 1 < |ids| { assert Link(t, sid, ids, i + 1); }
      assert Link(t, sid, ids, 0);
    }
  }

  lemma RevokingKeepsChained(w: World, sids: set<Uuid>, next: World)
    requires Consistent(w.db) && Chained(w)
    requires next.db.tokens == RevokeTokens(w.db.tokens, sids, w.clock)
    requires next.db.sessions.Keys == w.db.sessions.Keys
    requires forall sid :: sid in w.db.sessions ==>
      && next.db.sessions[sid].expiresAt == w.db.sessions[sid].expiresAt
      && (next.db.sessions[sid].revokedAt.Some? <==> (sid in sids || w.db.sessions[sid].revokedAt.Some?))
    requires next.pending == w.pending && next.history == w.history
    ensures Chained(next)
  {
    forall sid | sid in next.db.sessions ensures Chain(next.db, sid, next.history.lineage[sid]) {
      RevokingKeepsChain(w.db, sids, w.clock, sid, w.history.lineage[sid], next.db);
    }
  }

  /** A session whose rows a step does not touch keeps its chain. */
  lemma UntouchedKeepsChain(t: Tables, after: Tables, sid: Uuid, ids: seq<Uuid>)
    requires Chain(t, sid, ids)
    requires sid in after.sessions && after.sessions[sid] == t.sessions[sid]
    requires forall id :: id in t.tokens && t.tokens[id].session == sid ==> id in after.tokens && after.tokens[id] == t.tokens[id]
    requires forall id :: id in after.tokens && after.tokens[id].session == sid ==> id in t.tokens && t.tokens[id].session == sid
    ensures Chain(after, sid, ids)
  {
    forall i | 0 <= i < |ids| ensures Link(after, sid, ids, i) {
      assert Link(t, sid, ids, i) && Link(t, sid, ids, 0);
      if i + 1 < |ids| { assert Link(t, sid, ids, i + 1); }
    }
  }

  lemma LoginKeepsChained(w: World, policy: Policy, auditing: bool, e: Event)
    requires RowsKnown(w) && Chained(w) && policy.Valid() && e.Login? && Enabled(w, e)
    ensures Chained(StepLogin(w, policy, auditing, e).0)
  {
    LoginAdds(w, policy, auditing, e);
    var (next, o) := StepLogin(w, policy, auditing, e);
    forall sid | sid in next.db.sessions ensures Chain(next.db, sid, next.history.lineage[sid]) {
      var ids := next.history.lineage[sid];
      if sid == e.sid {
        assert Link(next.db, sid, ids, 0);
      } else {
        UntouchedKeepsChain(w.db, next.db, sid, ids);
      }
    }
  }

  /** What a successful commit leaves: the replacement added, the current row consumed. */
  function AfterRotation(t: Tables, p: Prepared): Tables
    requires p.current.id in t.tokens
  {
    Tables(t.sessions,
      t.tokens[p.replacement.id := p.replacement]
              [p.current.id := t.tokens[p.current.id].(usedAt := Some(p.rotatedAt), replacedBy := Some(p.replacement.id))])
  }

  lemma RotationExtendsChain(t: Tables, p: Prepared, ids: seq<Uuid>)
    requires Consistent(t) && Chain(t, p.session.id, ids)
    requires ids[|ids| - 1] in t.tokens && p.current.id == ids[|ids| - 1] && t.tokens[p.current.id].SameCredential(p.current)
    requires p.replacement.id !in t.tokens && p.replacement.session == p.session.id
    requires p.replacement.generation == p.current.generation + 1 && p.replacement.family == p.current.family
    requires p.replacement.issuedAt == p.rotatedAt
    requires p.replacement.usedAt.None? && p.replacement.revokedAt.None? && p.replacement.replacedBy.None?
    requires p.current.expiresAt <= p.replacement.expiresAt <= t.sessions[p.session.id].expiresAt
    requires t.sessions[p.session.id].revokedAt.None?
    ensures Chain(AfterRotation(t, p), p.session.id, ids + [p.replacement.id])
  {
    var after := AfterRotation(t, p);
    var sid := p.session.id;
    var more := ids + [p.replacement.id];
    forall i | 0 <= i < |more| ensures Link(after, sid, more, i) {
      assert Link(t, sid, ids, 0) && Link(t, sid, ids, |ids| - 1);
      if i < |ids| {
        assert Link(t, sid, ids, i);
        if i + 1 < |ids| { assert Link(t, sid, ids, i + 1); }
      }
    }
  }

  /** A commit wins exactly when the request read the newest link of an unrevoked session. */
  lemma CommitWinsIffNewest(w: World, request: nat)
    requires Inv(w) && Chained(w) && request in w.pending
    ensures var p := w.pending[request];
      && p.session.id in w.db.sessions && w.history.lineage[p.session.id] != []
      && var ids := w.history.lineage[p.session.id];
      && (RefreshCommit(w.db, p).Success? <==>
            p.current.id == ids[|ids| - 1] && w.db.sessions[p.session.id].revokedAt.None?)
      && p.current.id in ids
      && (RefreshCommit(w.db, p).Failure? ==> RefreshCommit(w.db, p) == Failure(Store(StaleRotation)))
  {
    var p := w.pending[request];
    CommitRotates(w, request);
    assert PreparedFits(w, p);
    var token := w.db.tokens[p.current.id];
    assert token.SameCredential(p.current);
    var sid := p.session.id;
    var ids := w.history.lineage[sid];
    var n := |ids| - 1;
    assert Link(w.db, sid, ids, n);
    var i :| 0 <= i < |ids| && ids[i] == p.current.id;
    assert Link(w.db, sid, ids, i);
    if i < n {
      assert Link(w.db, sid, ids, i + 1);
      assert GenerationTaken(w.db.tokens, sid, p.replacement.generation);
    } else {
      forall id | id in w.db.tokens && w.db.tokens[id].session == sid
        ensures w.db.tokens[id].generation != p.replacement.generation
      {
        var j :| 0 <= j < |ids| && ids[j] == id;
        assert Link(w.db, sid, ids, j);
      }
    }
  }

  lemma ReplacementOutlives(w: World, policy: Policy, request: nat)
    requires Inv(w) && ExpiriesExact(w, policy) && policy.Valid() && request in w.pending
    requires var p := w.pending[request]; p.current.id in w.db.tokens && p.session.id in w.db.sessions
    ensures var p := w.pending[request];
      p.current.expiresAt <= p.replacement.expiresAt <= w.db.sessions[p.session.id].expiresAt
  {
    var p := w.pending[request];
    assert PreparedFits(w, p);
    var token := w.db.tokens[p.current.id];
    assert token.SameCredential(p.current);
    assert ExpiryExact(token, w.db.sessions[token.session], policy);
    assert ExpiryExact(p.replacement, p.session, policy);
  }

  lemma RotatedSessionChain(w: World, policy: Policy, request: nat)
    requires Inv(w) && Chained(w) && ExpiriesExact(w, policy) && policy.Valid() && request in w.pending
    requires RefreshCommit(w.db, w.pending[request]).Success?
    ensures var p := w.pending[request];
      && p.current.id in w.db.tokens
      && RefreshCommit(w.db, p).value == AfterRotation(w.db, p)
      && p.session.id in w.db.sessions && p.session.id in w.history.lineage
      && Chain(AfterRotation(w.db, p), p.session.id, w.history.lineage[p.session.id] + [p.replacement.id])
      && p.replacement.id !in w.db.tokens && p.replacement.session == p.session.id
      && w.db.tokens[p.current.id].session == p.session.id
  {
    var p := w.pending[request];
    CommitWinsIffNewest(w, request);
    CommitRotates(w, request);
    ReplacementOutlives(w, policy, request);
    assert PreparedFits(w, p);
    var ids := w.history.lineage[p.session.id];
    assert Link(w.db, p.session.id, ids, |ids| - 1);
    RotationExtendsChain(w.db, p, ids);
  }

  lemma RotationKeepsOtherChain(t: Tables, p: Prepared, sid: Uuid, ids: seq<Uuid>)
    requires p.current.id in t.tokens && p.replacement.id !in t.tokens
    requires t.tokens[p.current.id].session == p.session.id && p.replacement.session == p.session.id
    requires sid != p.session.id && Chain(t, sid, ids)
    ensures Chain(AfterRotation(t, p), sid, ids)
  {
    UntouchedKeepsChain(t, AfterRotation(t, p), sid, ids);
  }

  lemma CommitKeepsChained(w: World, policy: Policy, auditing: bool, request: nat)
    requires Inv(w) && Chained(w) && ExpiriesExact(w, policy) && policy.Valid() && request in w.pending
    ensures Chained(StepCommit(w, auditing, request).0)
  {
    var next := StepCommit(w, auditing, request).0;
    var p := w.pending[request];
    if RefreshCommit(w.db, p).Success? {
      RotatedSessionChain(w, policy, request);
      RotationKeepsChained(w, p, next);
    }
  }

  lemma RotationKeepsChained(w: World, p: Prepared, next: World)
    requires Chained(w) && p.session.id in w.db.sessions
    requires p.current.id in w.db.tokens && p.replacement.id !in w.db.tokens
    requires w.db.tokens[p.current.id].session == p.session.id && p.replacement.session == p.session.id
    requires next.db == AfterRotation(w.db, p) && next.history.lineage == Extend(w.history.lineage, p.session.id, p.replacement.id)
    requires forall r :: r in next.pending ==> r in w.pending && next.pending[r] == w.pending[r]
    requires Chain(next.db, p.session.id, w.history.lineage[p.session.id] + [p.replacement.id])
    ensures Chained(next)
  {
    forall sid | sid in next.db.sessions ensures Chain(next.db, sid, next.history.lineage[sid]) {
      if sid != p.session.id { RotationKeepsOtherChain(w.db, p, sid, w.history.lineage[sid]); }
    }
  }

  lemma ReadKeepsChained(w: World, policy: Policy, auditing: bool, e: Event)
    requires Consistent(w.db) && Chained(w) && policy.Valid() && e.Read? && Enabled(w, e)
    ensures Chained(StepRead(w, policy, auditing, e).0)
  {
    var o := StepRead(w, policy, auditing, e).1;
    if o == Replayed { ReplayKeepsChained(w, policy, auditing, e); }
    if o == Prepares { PreparingKeepsChained(w, policy, auditing, e); }
  }

  lemma ReplayKeepsChained(w: World, policy: Policy, auditing: bool, e: Event)
    requires Consistent(w.db) && Chained(w) && e.Read? && StepRead(w, policy, auditing, e).1 == Replayed
    ensures Chained(StepRead(w, policy, auditing, e).0)
  {
    var id :| id in w.db.tokens && w.db.tokens[id].digest == e.presented;
    FindByDigestIs(w.db, id);
    RevokingKeepsChained(w, {w.db.tokens[id].session}, StepRead(w, policy, auditing, e).0);
  }

  lemma PreparingKeepsChained(w: World, policy: Policy, auditing: bool, e: Event)
    requires Consistent(w.db) && Chained(w) && policy.Valid() && e.Read? && Enabled(w, e)
    requires StepRead(w, policy, auditing, e).1 == Prepares
    ensures Chained(StepRead(w, policy, auditing, e).0)
  {
    var id :| id in w.db.tokens && w.db.tokens[id].digest == e.presented;
    ReadyIff(w.db, policy, e.presented, w.clock, e.newId, e.newDigest, id);
  }

  lemma LogoutKeepsChained(w: World, auditing: bool, user: Uuid, sid: Uuid)
    requires Consistent(w.db) && Chained(w)
    ensures Chained(StepLogout(w, auditing, user, sid).0)
  {
    var (next, o) := StepLogout(w, auditing, user, sid);
    if o == LoggedOut { RevokingKeepsChained(w, {sid}, next); }
  }

  lemma LogoutAllKeepsChained(w: World, auditing: bool, user: Uuid)
    requires Consistent(w.db) && Chained(w)
    ensures Chained(StepLogoutAll(w, auditing, user).0)
  {
    RevokingKeepsChained(w, UnrevokedOf(w.db, user), StepLogoutAll(w, auditing, user).0);
  }

  lemma StepKeepsChained(w: World, policy: Policy, auditing: bool, e: Event)
    requires Inv(w) && Chained(w) && ExpiriesExact(w, policy) && policy.Valid() && Enabled(w, e) && !e.Clean?
    ensures Chained(Step(w, policy, auditing, e).0)
  {
    var (next, o) := Step(w, policy, auditing, e);
    match e
    case Login(_, _, _, _, _) => LoginKeepsChained(w, policy, auditing, e);
    case Commit(request) => CommitKeepsChained(w, policy, auditing, request);
    case Read(_, _, _, _) => ReadKeepsChained(w, policy, auditing, e);
    case Logout(user, sid) => LogoutKeepsChained(w, auditing, user, sid);
    case LogoutAll(user) => LogoutAllKeepsChained(w, auditing, user);
    case _ =>
  }

  /** The entries a step appends: at most two, and a refresh entry only for a rotation. */
  function Entries(w: World, e: Event, o: Outcome): seq<AuditEntry>
    requires Enabled(w, e)
  {
    match (e, o)
    case (Login(_, sid, _, _, _), LoggedIn) => [LoginSucceeded(sid), SessionCreated(sid)]
    case (Commit(request), Rotated) => [SessionRefreshed(w.pending[request].session.id)]
    case (Logout(_, sid), LoggedOut) => [SessionRevoked(sid)]
    case (LogoutAll(user), LoggedOutAll(count)) => [SessionRevokedAll(user, count)]
    case _ => []
  }

  lemma CountUnrelated(audit: seq<AuditEntry>, added: seq<AuditEntry>, x: AuditEntry)
    requires |added| <= 2 && x !in added
    ensures Count(audit + added, x) == Count(audit, x)
  {
    if |added| == 1 {
      CountAppend(audit, added[0], x);
      assert audit + added == audit + [added[0]];
    } else if |added| == 2 {
      CountAppend(audit, added[0], x);
      CountAppend(audit + [added[0]], added[1], x);
      assert audit + added == audit + [added[0]] + [added[1]];
    } else {
      assert audit + added == audit;
    }
  }

  lemma StepCountsRefreshes(w: World, policy: Policy, e: Event, sid: Uuid)
    requires Enabled(w, e)
    ensures var (next, o) := Step(w, policy, true, e);
      Count(next.audit, SessionRefreshed(sid)) == Count(w.audit, SessionRefreshed(sid)) +
        (if o == Rotated && sid == w.pending[e.request].session.id then 1 else 0)
  {
    var (next, o) := Step(w, policy, true, e);
    if o == Rotated {
      CountAppend(w.audit, SessionRefreshed(w.pending[e.request].session.id), SessionRefreshed(sid));
    } else if o == Replayed {
      var replayed := FindByDigest(w.db, e.presented).value.session;
      CountUnrelated(w.audit, [ReplayDetected(replayed), SessionRevoked(replayed)], SessionRefreshed(sid));
    } else {
      CountUnrelated(w.audit, Entries(w, e, o), SessionRefreshed(sid));
      assert next.audit == w.audit + Entries(w, e, o) || next.audit == w.audit;
    }
  }

  lemma LineageGrows(w: World, policy: Policy, auditing: bool, e: Event)
    requires Enabled(w, e)
    ensures var (next, o) := Step(w, policy, auditing, e);
      next.history.lineage ==
        if o == LoggedIn then w.history.lineage[e.sid := [e.tokenId]]
        else if o == Rotated then Extend(w.history.lineage, w.pending[e.request].session.id, w.pending[e.request].replacement.id)
        else w.history.lineage
  {
  }

  lemma GrowthKeepsAudit(w: World, policy: Policy, e: Event)
    requires Enabled(w, e) && RefreshesAudited(w) && NothingAuditedEarly(w)
    requires Step(w, policy, true, e).1 == LoggedIn ==> e.sid !in w.history.lineage
    requires Step(w, policy, true, e).1 == Rotated ==>
      && w.pending[e.request].session.id in w.history.lineage
      && |w.history.lineage[w.pending[e.request].session.id]| > 0
    ensures RefreshesAudited(Step(w, policy, true, e).0) && NothingAuditedEarly(Step(w, policy, true, e).0)
  {
    var (next, o) := Step(w, policy, true, e);
    LineageGrows(w, policy, true, e);
    forall sid: Uuid ensures
      if sid in next.history.lineage then Count(next.audit, SessionRefreshed(sid)) == |next.history.lineage[sid]| - 1
      else Count(next.audit, SessionRefreshed(sid)) == 0
    {
      StepCountsRefreshes(w, policy, e, sid);
    }
  }

  lemma StepKeepsAudit(w: World, policy: Policy, e: Event)
    requires Inv(w) && Chained(w) && policy.Valid() && Enabled(w, e) && !e.Clean?
    requires RefreshesAudited(w) && NothingAuditedEarly(w)
    ensures RefreshesAudited(Step(w, policy, true, e).0) && NothingAuditedEarly(Step(w, policy, true, e).0)
  {
    var o := Step(w, policy, true, e).1;
    if o == Rotated { CommitWinsIffNewest(w, e.request); }
    if o == LoggedIn { assert e.sid !in w.history.lineage; }
    GrowthKeepsAudit(w, policy, e);
  }

  /** Main result: after any run without cleanup the tokens of every session are one chain,
      expiries follow the policy, and auditing has recorded exactly the rotations. */
  lemma {:induction false} RunKeepsChains(w: World, policy: Policy, auditing: bool, es: seq<Event>)
    requires Inv(w) && Chained(w) && ExpiriesExact(w, policy) && policy.Valid()
    requires Possible(w, policy, auditing, es) && WithoutCleanup(es)
    requires auditing ==> RefreshesAudited(w) && NothingAuditedEarly(w)
    ensures var end := Run(w, policy, auditing, es);
      Inv(end) && Chained(end) && ExpiriesExact(end, policy)
      && (auditing ==> RefreshesAudited(end) && NothingAuditedEarly(end))
    decreases |es|
  {
    if es != [] {
      assert !es[0].Clean?;
      StepKeepsInv(w, policy, auditing, es[0]);
      StepKeepsChained(w, policy, auditing, es[0]);
      StepKeepsExpiries(w, policy, auditing, es[0]);
      if auditing { StepKeepsAudit(w, policy, es[0]); }
      RunKeepsChains(Step(w, policy, auditing, es[0]).0, policy, auditing, es[1..]);
    }
  }

  /** The chain as a reader of the tables sees it, after any run from an empty store. */
  lemma TokensFormOneChain(at: Instant, policy: Policy, auditing: bool, es: seq<Event>, sid: Uuid)
    requires policy.Valid() && Possible(Start(at), policy, auditing, es) && WithoutCleanup(es)
    requires sid in Run(Start(at), policy, auditing, es).db.sessions
    ensures var end := Run(Start(at), policy, auditing, es);
      exists ids: seq<Uuid> :: Chain(end.db, sid, ids)
        && (auditing ==> Count(end.audit, SessionRefreshed(sid)) == |ids| - 1)
  {
    RunKeepsChains(Start(at), policy, auditing, es);
    var end := Run(Start(at), policy, auditing, es);
    assert Chain(end.db, sid, end.history.lineage[sid]);
  }
}
