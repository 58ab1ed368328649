/** Bounded cleanup: what it deletes, and exactly when later requests cannot tell
    that it ran (security/repository.py, security/cleanup.py). */
module SessionCleanup {
  import opened Common
  import opened SessionRecords
  import opened SessionTables
  import opened SessionLifecycle
  import opened SessionRuns
  import opened SessionInvariants
  import opened SessionChain

  // ---------- what one call deletes ----------

  /** Rows are deleted or kept as they were: no session active now, and no token of an
      active session before its expiry. */
  ghost predicate SafeDeletion(t: Tables, after: Tables, now: Instant) {
    && (forall sid :: sid in after.sessions ==> sid in t.sessions && after.sessions[sid] == t.sessions[sid])
    && (forall id :: id in after.tokens ==> id in t.tokens && after.tokens[id] == t.tokens[id])
    && (forall sid :: sid in t.sessions && sid !in after.sessions ==> !t.sessions[sid].IsActive(now))
    && (forall id :: id in t.tokens && id !in after.tokens && ActiveIn(t.sessions, t.tokens[id].session, now) ==>
          t.tokens[id].IsExpired(now))
    && (forall id :: id in t.tokens && id !in after.tokens && t.tokens[id].session in after.sessions ==> t.tokens[id].IsExpired(now))
  }

  lemma DeletingTokens(t: Tables, now: Instant, limit: nat)
    ensures var batch := ExpiredTokenBatch(t, now, limit);
      |batch| <= limit && SafeDeletion(t, DeleteTokens(t, batch), now)
  {
    FirstBatchIs(TokenExpiries(t), Before(TokenExpiries(t), now), limit);
  }

  lemma DeletingInactive(t: Tables, batch: set<Uuid>, now: Instant)
    requires forall sid :: sid in batch ==> sid in t.sessions && !t.sessions[sid].IsActive(now)
    ensures SafeDeletion(t, DeleteSessions(t, batch), now)
  {
  }

  lemma DeletingExpired(t: Tables, now: Instant, retention: nat, limit: nat)
    ensures var batch := ExpiredSessionBatch(t, now - retention, limit);
      |batch| <= limit && SafeDeletion(t, DeleteSessions(t, batch), now)
  {
    FirstBatchIs(SessionExpiries(t), Before(SessionExpiries(t), now - retention), limit);
    DeletingInactive(t, ExpiredSessionBatch(t, now - retention, limit), now);
  }

  lemma DeletingRevoked(t: Tables, now: Instant, retention: nat, limit: nat)
    ensures var batch := RevokedSessionBatch(t, now - retention, limit);
      |batch| <= limit && SafeDeletion(t, DeleteSessions(t, batch), now)
  {
    FirstBatchIs(RevocationTimes(t), Before(RevocationTimes(t), now - retention), limit);
    DeletingInactive(t, RevokedSessionBatch(t, now - retention, limit), now);
  }

  /** At most `limit` rows per query, never an active session, and never a token that
      could still be redeemed. */
  lemma CleanupIsBoundedAndSafe(t: Tables, now: Instant, expiredRetention: nat, revokedRetention: nat, limit: nat)
    requires Cleanup(t, now, expiredRetention, revokedRetention, limit).Success?
    ensures var (after, counts) := Cleanup(t, now, expiredRetention, revokedRetention, limit).value;
      && counts.tokens <= limit && counts.expiredSessions <= limit && counts.revokedSessions <= limit
      && SafeDeletion(t, after, now)
      && (forall id :: id in t.tokens && id !in after.tokens ==>
            !(t.tokens[id].IsCurrent(now) && ActiveIn(t.sessions, t.tokens[id].session, now)))
  {
    DeletingTokens(t, now, limit);
    var t1 := DeleteTokens(t, ExpiredTokenBatch(t, now, limit));
    DeletingExpired(t1, now, expiredRetention, limit);
    var t2 := DeleteSessions(t1, ExpiredSessionBatch(t1, now - expiredRetention, limit));
    DeletingRevoked(t2, now, revokedRetention, limit);
    var t3 := DeleteSessions(t2, RevokedSessionBatch(t2, now - revokedRetention, limit));
    SafeDeletionComposes(t, t1, t2, now);
    SafeDeletionComposes(t, t2, t3, now);
  }

  lemma SafeDeletionComposes(a: Tables, b: Tables, c: Tables, now: Instant)
    requires SafeDeletion(a, b, now) && SafeDeletion(b, c, now)
    ensures SafeDeletion(a, c, now)
  {
  }

  // ---------- generations, with cleanup running ----------

  /** Generations are unique within a session, and every row below another is spent. */
  ghost predicate GenerationsOrdered(t: Tables) {
    forall a, b :: a in t.tokens && b in t.tokens && a != b && t.tokens[a].session == t.tokens[b].session ==>
      && t.tokens[a].generation != t.tokens[b].generation
      && (t.tokens[a].generation < t.tokens[b].generation ==> t.tokens[a].IsSpent())
  }

  lemma LifecycleKeepsGenerations(before: Tables, after: Tables)
    requires GenerationsOrdered(before) && OnlyLifecycleChanged(before, after)
    ensures GenerationsOrdered(after)
  {
    forall a, b | a in after.tokens && b in after.tokens && a != b && after.tokens[a].session == after.tokens[b].session
      ensures after.tokens[a].generation != after.tokens[b].generation
      ensures after.tokens[a].generation < after.tokens[b].generation ==> after.tokens[a].IsSpent()
    {
      assert after.tokens[a].SameCredential(before.tokens[a]);
      assert after.tokens[b].SameCredential(before.tokens[b]);
    }
  }

  lemma RotationKeepsGenerations(t: Tables, p: Prepared)
    requires GenerationsOrdered(t) && p.current.id in t.tokens && t.tokens[p.current.id].SameCredential(p.current)
    requires !t.tokens[p.current.id].IsSpent() && p.replacement.id !in t.tokens
    requires p.replacement.session == p.current.session && p.replacement.generation == p.current.generation + 1
    ensures GenerationsOrdered(AfterRotation(t, p))
  {
    var after := AfterRotation(t, p);
    forall id | id in t.tokens && t.tokens[id].session == p.current.session && id != p.current.id
      ensures t.tokens[id].IsSpent() && t.tokens[id].generation < p.current.generation
    {
      assert t.tokens[id].generation != t.tokens[p.current.id].generation;
    }
    assert after.tokens[p.current.id].IsSpent();
  }

  lemma CommitKeepsGenerations(w: World, auditing: bool, request: nat)
    requires RowsKnown(w) && PendingFits(w) && GenerationsOrdered(w.db) && request in w.pending
    ensures GenerationsOrdered(StepCommit(w, auditing, request).0.db)
  {
    var p := w.pending[request];
    if RefreshCommit(w.db, p).Success? {
      CommitRotates(w, request);
      assert PreparedFits(w, p);
      RotationKeepsGenerations(w.db, p);
    }
  }

  lemma LoginKeepsGenerations(w: World, policy: Policy, auditing: bool, e: Event)
    requires RowsKnown(w) && GenerationsOrdered(w.db) && policy.Valid() && e.Login? && Enabled(w, e)
    ensures GenerationsOrdered(StepLogin(w, policy, auditing, e).0.db)
  {
    LoginAdds(w, policy, auditing, e);
  }

  lemma ReadKeepsGenerations(w: World, policy: Policy, auditing: bool, e: Event)
    requires RowsKnown(w) && GenerationsOrdered(w.db) && policy.Valid() && e.Read? && Enabled(w, e)
    ensures GenerationsOrdered(StepRead(w, policy, auditing, e).0.db)
  {
    var (next, o) := StepRead(w, policy, auditing, e);
    if o == Replayed {
      ReplayKeepsRows(w, policy, auditing, e);
      LifecycleKeepsGenerations(w.db, next.db);
    }
  }

  lemma StepKeepsGenerations(w: World, policy: Policy, auditing: bool, e: Event)
    requires Inv(w) && GenerationsOrdered(w.db) && policy.Valid() && Enabled(w, e)
    ensures GenerationsOrdered(Step(w, policy, auditing, e).0.db)
  {
    var (next, o) := Step(w, policy, auditing, e);
    match e
    case Login(_, _, _, _, _) => LoginKeepsGenerations(w, policy, auditing, e);
    case Commit(request) => CommitKeepsGenerations(w, auditing, request);
    case Read(_, _, _, _) => ReadKeepsGenerations(w, policy, auditing, e);
    case Logout(user, sid) =>
      if o == LoggedOut { RevokeSessionKeepsRows(w, sid); LifecycleKeepsGenerations(w.db, next.db); }
    case LogoutAll(user) => RevokeAllKeepsRows(w, user); LifecycleKeepsGenerations(w.db, next.db);
    case Clean(limit, expired, revoked) =>
      if o.Cleaned? {
        CleanupKeepsRows(w.db, w.clock, expired, revoked, limit);
        LifecycleKeepsGenerations(w.db, next.db);
      }
    case _ =>
  }

  // ---------- two worlds that answer alike ----------

  /** A request in flight that would win if it committed now: the row it read is still
      current, and its session active, as of the moment it read them. */
  predicate Contends(w: World, r: nat) {
    r in w.pending
    && w.pending[r].current.id in w.db.tokens
    && w.db.tokens[w.pending[r].current.id].IsCurrent(w.pending[r].rotatedAt)
    && ActiveIn(w.db.sessions, w.pending[r].session.id, w.pending[r].rotatedAt)
  }

  ghost predicate Contended(w: World, sid: Uuid) {
    exists r :: Contends(w, r) && w.pending[r].session.id == sid
  }

  /** A session that can still answer a request: active now, or read by one that can still win. */
  ghost predicate Useful(w: World, sid: Uuid) {
    ActiveIn(w.db.sessions, sid, w.clock) || Contended(w, sid)
  }

  /** Session rows agree wherever it matters. */
  ghost predicate SessionsAgree(w: World, v: World) {
    && (forall sid :: Useful(w, sid) ==>
          sid in w.db.sessions && sid in v.db.sessions && w.db.sessions[sid] == v.db.sessions[sid])
    && (forall sid :: sid in v.db.sessions && !Useful(w, sid) ==> !ActiveIn(v.db.sessions, sid, w.clock))
  }

  /** Token rows of useful sessions agree, except for expired rows nobody ever spent. */
  ghost predicate TokensAgree(w: World, v: World) {
    && (forall id :: id in v.db.tokens ==> id in w.db.tokens && v.db.tokens[id].SameCredential(w.db.tokens[id]))
    && (forall id :: id in w.db.tokens && Useful(w, w.db.tokens[id].session) ==>
          if id in v.db.tokens then v.db.tokens[id] == w.db.tokens[id]
          else !w.db.tokens[id].IsSpent() && w.db.tokens[id].IsExpired(w.clock))
  }

  /** The same requests in flight can still win. */
  ghost predicate ContendersAgree(w: World, v: World) {
    forall r :: Contends(w, r) <==> Contends(v, r)
  }

  /** `w` never ran the cleanup that `v` ran. */
  ghost predicate Agree(w: World, v: World) {
    && v.clock == w.clock && v.pending == w.pending && v.history == w.history
    && SessionsAgree(w, v) && TokensAgree(w, v) && ContendersAgree(w, v)
  }

  ghost predicate Fit(w: World) {
    Inv(w) && GenerationsOrdered(w.db)
  }

  predicate Granted(o: Outcome) {
    o == LoggedIn || o == Prepares || o == Rotated || o == Verified
  }

  lemma UsefulToken(w: World, v: World, id: Uuid)
    requires TokensAgree(w, v) && id in v.db.tokens && Useful(w, v.db.tokens[id].session)
    ensures id in w.db.tokens && w.db.tokens[id] == v.db.tokens[id]
  {
    assert v.db.tokens[id].SameCredential(w.db.tokens[id]);
  }

  /** The row a request read belongs to the session it read. */
  ghost predicate ReadsAtHome(w: World) {
    forall r :: r in w.pending && w.pending[r].current.id in w.db.tokens ==>
      w.db.tokens[w.pending[r].current.id].session == w.pending[r].session.id
  }

  lemma InvReadsAtHome(w: World)
    requires EachFits(w)
    ensures ReadsAtHome(w)
  {
    forall r | r in w.pending && w.pending[r].current.id in w.db.tokens
      ensures w.db.tokens[w.pending[r].current.id].session == w.pending[r].session.id
    {
      assert PreparedFits(w, w.pending[r]);
    }
  }

  /** Both worlds hold the same rows for a request that can still win. */
  lemma ContenderRows(w: World, v: World, r: nat)
    requires SessionsAgree(w, v) && TokensAgree(w, v) && ContendersAgree(w, v) && v.pending == w.pending
    requires ReadsAtHome(w) && Contends(w, r)
    ensures var p := w.pending[r];
      && Contends(v, r) && Useful(w, p.session.id) && w.db.tokens[p.current.id].session == p.session.id
      && p.session.id in v.db.sessions && v.db.sessions[p.session.id] == w.db.sessions[p.session.id]
      && p.current.id in v.db.tokens && v.db.tokens[p.current.id] == w.db.tokens[p.current.id]
  {
    assert Contends(v, r) && Contended(w, w.pending[r].session.id);
    UsefulToken(w, v, w.pending[r].current.id);
  }

  // ---------- revocations ----------

  function RevokedRow(s: AuthSession, at: Instant): AuthSession {
    if s.revokedAt.Some? then s else s.(updatedAt := at, revokedAt := Some(at))
  }

  /** The step revoked exactly the sessions `sids`. */
  ghost predicate RevokedExactly(before: Tables, after: Tables, sids: set<Uuid>, at: Instant) {
    && after.tokens == RevokeTokens(before.tokens, sids, at)
    && after.sessions.Keys == before.sessions.Keys
    && (forall sid :: sid in before.sessions ==>
          after.sessions[sid] == if sid in sids then RevokedRow(before.sessions[sid], at) else before.sessions[sid])
  }

  lemma RevokingNothing(t: Tables, at: Instant)
    ensures RevokedExactly(t, t, {}, at)
  {
  }

  lemma RevokingOne(t: Tables, sid: Uuid, at: Instant)
    requires RevokeSession(t, sid, at).Success?
    ensures RevokedExactly(t, RevokeSession(t, sid, at).value, {sid}, at)
  {
  }

  lemma RevokingAll(t: Tables, user: Uuid, at: Instant)
    ensures RevokedExactly(t, RevokeAll(t, user, at), UnrevokedOf(t, user), at)
  {
  }

  /** Revoking lets no losing request win. */
  lemma RevokingLosers(w: World, next: World, sids: set<Uuid>, r: nat)
    requires RevokedExactly(w.db, next.db, sids, w.clock) && next.pending == w.pending && Contends(next, r)
    ensures Contends(w, r)
  {
  }

  lemma RevocationsKeepContenders(w: World, v: World, next: World, nextV: World, sids: set<Uuid>, sidsV: set<Uuid>)
    requires SessionsAgree(w, v) && TokensAgree(w, v) && ContendersAgree(w, v) && v.pending == w.pending && ReadsAtHome(w)
    requires RevokedExactly(w.db, next.db, sids, w.clock) && RevokedExactly(v.db, nextV.db, sidsV, w.clock)
    requires forall sid :: Useful(w, sid) ==> (sid in sids <==> sid in sidsV)
    requires next.pending == nextV.pending == w.pending && v.clock == w.clock
    ensures ContendersAgree(next, nextV)
  {
    forall r | Contends(next, r) || Contends(nextV, r) ensures Contends(next, r) && Contends(nextV, r) {
      if Contends(next, r) { RevokingLosers(w, next, sids, r); } else { RevokingLosers(v, nextV, sidsV, r); }
      ContenderRows(w, v, r);
    }
  }

  lemma RevocationsAgree(w: World, v: World, next: World, nextV: World, sids: set<Uuid>, sidsV: set<Uuid>)
    requires Agree(w, v) && ReadsAtHome(w)
    requires RevokedExactly(w.db, next.db, sids, w.clock) && RevokedExactly(v.db, nextV.db, sidsV, w.clock)
    requires forall sid :: Useful(w, sid) ==> (sid in sids <==> sid in sidsV)
    requires next.clock == nextV.clock == w.clock && next.pending == nextV.pending == w.pending
    requires next.history == nextV.history == w.history
    ensures Agree(next, nextV)
  {
    RevocationsKeepContenders(w, v, next, nextV, sids, sidsV);
    forall sid | Useful(next, sid) ensures Useful(w, sid) {
      if Contended(next, sid) {
        var r :| Contends(next, r) && next.pending[r].session.id == sid;
        RevokingLosers(w, next, sids, r);
      }
    }
    assert SessionsAgree(next, nextV);
    forall id | id in next.db.tokens && Useful(next, next.db.tokens[id].session)
      ensures if id in nextV.db.tokens then nextV.db.tokens[id] == next.db.tokens[id]
              else !next.db.tokens[id].IsSpent() && next.db.tokens[id].IsExpired(next.clock)
    {
      assert Useful(w, w.db.tokens[id].session);
    }
    assert TokensAgree(next, nextV);
  }

  // ---------- one step in both worlds ----------

  lemma TickIs(w: World, policy: Policy, auditing: bool, seconds: nat)
    ensures Step(w, policy, auditing, Tick(seconds)) == (w.(clock := w.clock + seconds), Ticked)
  {
  }

  lemma AgreeTick(w: World, v: World, policy: Policy, auditing: bool, seconds: nat)
    requires Agree(w, v)
    ensures Agree(Step(w, policy, auditing, Tick(seconds)).0, Step(v, policy, auditing, Tick(seconds)).0)
  {
    TickIs(w, policy, auditing, seconds);
    TickIs(v, policy, auditing, seconds);
    LaterAgrees(w, v, w.(clock := w.clock + seconds), v.(clock := v.clock + seconds));
  }

  lemma LaterAgrees(w: World, v: World, next: World, nextV: World)
    requires Agree(w, v) && next.clock == nextV.clock >= w.clock
    requires next.db == w.db && nextV.db == v.db && next.pending == nextV.pending == w.pending && next.history == nextV.history
    ensures Agree(next, nextV)
  {
    forall r ensures (Contends(next, r) <==> Contends(w, r)) && (Contends(nextV, r) <==> Contends(v, r)) {}
    forall sid | Useful(next, sid) ensures Useful(w, sid) {
      if Contended(next, sid) {
        var r :| Contends(next, r) && next.pending[r].session.id == sid;
        assert Contends(w, r);
      }
    }
    assert SessionsAgree(next, nextV);
    assert TokensAgree(next, nextV);
  }

  lemma AgreeLogin(w: World, v: World, policy: Policy, auditing: bool, e: Event)
    requires RowsKnown(w) && RowsKnown(v) && EachFits(w) && Agree(w, v) && policy.Valid() && e.Login? && Enabled(w, e)
    ensures Agree(StepLogin(w, policy, auditing, e).0, StepLogin(v, policy, auditing, e).0)
    ensures StepLogin(w, policy, auditing, e).1 == LoggedIn && StepLogin(v, policy, auditing, e).1 == LoggedIn
  {
    LoginAdds(w, policy, auditing, e);
    LoginAdds(v, policy, auditing, e);
    FreshForReaders(w, e.sid, e.tokenId);
    var next := StepLogin(w, policy, auditing, e).0;
    AddingSessionAgrees(w, v, next, StepLogin(v, policy, auditing, e).0, next.db.sessions[e.sid], next.db.tokens[e.tokenId]);
  }

  /** No request in flight has read identifiers that are only now handed out. */
  ghost predicate Unread(w: World, sid: Uuid, tokenId: Uuid) {
    forall r :: r in w.pending ==> w.pending[r].current.id != tokenId && w.pending[r].session.id != sid
  }

  lemma FreshForReaders(w: World, sid: Uuid, tokenId: Uuid)
    requires RowsKnown(w) && EachFits(w) && sid !in w.history.ids && tokenId !in w.history.ids
    ensures Unread(w, sid, tokenId)
    ensures sid !in w.db.sessions && tokenId !in w.db.tokens
    ensures forall id :: id in w.db.tokens ==> w.db.tokens[id].session != sid
  {
    forall r | r in w.pending ensures w.pending[r].current.id != tokenId && w.pending[r].session.id != sid {
      assert PreparedFits(w, w.pending[r]);
    }
  }

  lemma AddingKeepsContenders(w: World, next: World, session: AuthSession, token: RefreshToken)
    requires next.db == Tables(w.db.sessions[session.id := session], w.db.tokens[token.id := token]) && next.pending == w.pending
    requires Unread(w, session.id, token.id)
    ensures forall r :: Contends(next, r) <==> Contends(w, r)
    ensures forall sid :: Contended(next, sid) <==> Contended(w, sid)
  {
    forall r ensures Contends(next, r) <==> Contends(w, r) {}
  }

  lemma AddingSessionAgrees(w: World, v: World, next: World, nextV: World, session: AuthSession, token: RefreshToken)
    requires Agree(w, v)
    requires next.db == Tables(w.db.sessions[session.id := session], w.db.tokens[token.id := token])
    requires nextV.db == Tables(v.db.sessions[session.id := session], v.db.tokens[token.id := token])
    requires session.id !in w.db.sessions && session.id !in v.db.sessions && token.id !in w.db.tokens && token.id !in v.db.tokens
    requires token.session == session.id && session.IsActive(w.clock) && Unread(w, session.id, token.id)
    requires forall id :: id in w.db.tokens ==> w.db.tokens[id].session != session.id
    requires next.clock == nextV.clock == w.clock && next.pending == nextV.pending == w.pending
    requires next.history == nextV.history
    ensures Agree(next, nextV)
  {
    AddingKeepsContenders(w, next, session, token);
    AddingKeepsContenders(v, nextV, session, token);
    assert forall sid :: sid != session.id ==> (Useful(next, sid) <==> Useful(w, sid));
    AddingRowAgrees(w, v, next, nextV, session);
    AddingTokenAgrees(w, v, next, nextV, session, token);
  }

  lemma AddingRowAgrees(w: World, v: World, next: World, nextV: World, session: AuthSession)
    requires SessionsAgree(w, v)
    requires next.db.sessions == w.db.sessions[session.id := session] && nextV.db.sessions == v.db.sessions[session.id := session]
    requires session.id !in w.db.sessions && session.IsActive(w.clock)
    requires forall sid :: sid != session.id ==> (Useful(next, sid) <==> Useful(w, sid))
    requires next.clock == w.clock
    ensures SessionsAgree(next, nextV)
  {
  }

  lemma AddingTokenAgrees(w: World, v: World, next: World, nextV: World, session: AuthSession, token: RefreshToken)
    requires TokensAgree(w, v)
    requires next.db.tokens == w.db.tokens[token.id := token] && nextV.db.tokens == v.db.tokens[token.id := token]
    requires token.id !in w.db.tokens && token.id !in v.db.tokens
    requires forall id :: id in w.db.tokens ==> w.db.tokens[id].session != session.id
    requires forall sid :: sid != session.id ==> (Useful(next, sid) <==> Useful(w, sid))
    requires next.clock == w.clock
    ensures TokensAgree(next, nextV)
  {
  }

  lemma AgreeVerify(w: World, v: World, user: Uuid, sid: Uuid)
    requires Agree(w, v)
    ensures VerifyAccess(w.db, user, sid, w.clock).Success? <==> VerifyAccess(v.db, user, sid, w.clock).Success?
  {
    if !Useful(w, sid) { assert !ActiveIn(v.db.sessions, sid, w.clock); }
  }

  /** A logout revokes its session or nothing. */
  lemma LogoutRevokes(w: World, auditing: bool, user: Uuid, sid: Uuid) returns (sids: set<Uuid>)
    requires RowsKnown(w)
    ensures var (next, o) := StepLogout(w, auditing, user, sid);
      && RevokedExactly(w.db, next.db, sids, w.clock) && !Granted(o)
      && next.clock == w.clock && next.pending == w.pending && next.history == w.history
    ensures sids == if sid in w.db.sessions && w.db.sessions[sid].user == user then {sid} else {}
  {
    RevokingNothing(w.db, w.clock);
    sids := {};
    if sid in w.db.sessions && w.db.sessions[sid].user == user {
      sids := {sid};
      RevokeSessionKeepsRows(w, sid);
      RevokingOne(w.db, sid, w.clock);
    }
  }

  lemma AgreeLogout(w: World, v: World, auditing: bool, user: Uuid, sid: Uuid)
    requires Agree(w, v) && RowsKnown(w) && RowsKnown(v) && ReadsAtHome(w)
    ensures Agree(StepLogout(w, auditing, user, sid).0, StepLogout(v, auditing, user, sid).0)
    ensures !Granted(StepLogout(w, auditing, user, sid).1) && !Granted(StepLogout(v, auditing, user, sid).1)
  {
    var sids := LogoutRevokes(w, auditing, user, sid);
    var sidsV := LogoutRevokes(v, auditing, user, sid);
    RevocationsAgree(w, v, StepLogout(w, auditing, user, sid).0, StepLogout(v, auditing, user, sid).0, sids, sidsV);
  }

  lemma AgreeLogoutAll(w: World, v: World, auditing: bool, user: Uuid)
    requires Agree(w, v) && ReadsAtHome(w)
    ensures Agree(StepLogoutAll(w, auditing, user).0, StepLogoutAll(v, auditing, user).0)
  {
    RevokingAll(w.db, user, w.clock);
    RevokingAll(v.db, user, w.clock);
    RevocationsAgree(w, v, StepLogoutAll(w, auditing, user).0, StepLogoutAll(v, auditing, user).0,
      UnrevokedOf(w.db, user), UnrevokedOf(v.db, user));
  }

  // ---------- reads ----------

  /** The digest is a spent token of this session. */
  ghost predicate SpentHere(t: Tables, digest: Digest, sid: Uuid) {
    exists id :: id in t.tokens && t.tokens[id].digest == digest && t.tokens[id].IsSpent() && t.tokens[id].session == sid
  }

  /** What a read does to the tables: it revokes at most the presented token's session. */
  lemma ReadRevokes(w: World, policy: Policy, auditing: bool, e: Event) returns (sids: set<Uuid>)
    requires RowsKnown(w) && policy.Valid() && e.Read? && Enabled(w, e)
    ensures var (next, o) := StepRead(w, policy, auditing, e);
      && RevokedExactly(w.db, next.db, sids, w.clock) && next.clock == w.clock
      && (o != Prepares ==> next.pending == w.pending && next.history == w.history)
      && (sids != {} ==> o == Replayed)
    ensures forall sid :: sid in sids <==> SpentHere(w.db, e.presented, sid)
  {
    RevokingNothing(w.db, w.clock);
    sids := {};
    if HasDigest(w.db, e.presented) {
      var id :| id in w.db.tokens && w.db.tokens[id].digest == e.presented;
      FindByDigestIs(w.db, id);
      if w.db.tokens[id].IsSpent() {
        sids := {w.db.tokens[id].session};
        RevokeSessionKeepsRows(w, w.db.tokens[id].session);
        RevokingOne(w.db, w.db.tokens[id].session, w.clock);
      }
    }
  }

  /** Both worlds prepare the same rotation or neither prepares one. */
  lemma ReadsPrepareAlike(w: World, v: World, policy: Policy, auditing: bool, e: Event)
    requires Consistent(w.db) && Consistent(v.db) && Agree(w, v) && policy.Valid() && e.Read? && Enabled(w, e)
    ensures var (next, o) := StepRead(w, policy, auditing, e);
      var (nextV, oV) := StepRead(v, policy, auditing, e);
      && (o == Prepares <==> oV == Prepares)
      && !(o == LoggedIn || o == Rotated || o == Verified) && !(oV == LoggedIn || oV == Rotated || oV == Verified)
      && (o == Prepares ==>
            && next.pending == nextV.pending && next.history == nextV.history && next.db == w.db && nextV.db == v.db
            && e.request in next.pending
            && var p := next.pending[e.request];
            && next.pending == w.pending[e.request := p]
            && Contends(next, e.request) && Contends(nextV, e.request) && ActiveIn(w.db.sessions, p.session.id, w.clock))
  {
    if HasDigest(v.db, e.presented) {
      var id :| id in v.db.tokens && v.db.tokens[id].digest == e.presented;
      assert v.db.tokens[id].SameCredential(w.db.tokens[id]);
      ReadyIff(v.db, policy, e.presented, w.clock, e.newId, e.newDigest, id);
      ReadyIff(w.db, policy, e.presented, w.clock, e.newId, e.newDigest, id);
      if Useful(w, w.db.tokens[id].session) { UsefulToken(w, v, id); }
    } else if HasDigest(w.db, e.presented) {
      var id :| id in w.db.tokens && w.db.tokens[id].digest == e.presented;
      ReadyIff(w.db, policy, e.presented, w.clock, e.newId, e.newDigest, id);
    }
  }

  lemma AgreeRead(w: World, v: World, policy: Policy, auditing: bool, e: Event)
    requires Inv(w) && Inv(v) && Agree(w, v) && policy.Valid() && e.Read? && Enabled(w, e)
    ensures Agree(StepRead(w, policy, auditing, e).0, StepRead(v, policy, auditing, e).0)
    ensures Granted(StepRead(w, policy, auditing, e).1) <==> Granted(StepRead(v, policy, auditing, e).1)
  {
    var (next, o) := StepRead(w, policy, auditing, e);
    var (nextV, oV) := StepRead(v, policy, auditing, e);
    ReadsPrepareAlike(w, v, policy, auditing, e);
    if o == Prepares {
      AddingRequestAgrees(w, v, next, nextV, e.request);
    } else {
      ReadsRevokeAlike(w, v, policy, auditing, e);
    }
  }

  lemma ReadsRevokeAlike(w: World, v: World, policy: Policy, auditing: bool, e: Event)
    requires Inv(w) && Inv(v) && Agree(w, v) && policy.Valid() && e.Read? && Enabled(w, e)
    requires StepRead(w, policy, auditing, e).1 != Prepares && StepRead(v, policy, auditing, e).1 != Prepares
    ensures Agree(StepRead(w, policy, auditing, e).0, StepRead(v, policy, auditing, e).0)
  {
    InvReadsAtHome(w);
    var sids := ReadRevokes(w, policy, auditing, e);
    var sidsV := ReadRevokes(v, policy, auditing, e);
    forall sid | Useful(w, sid) ensures sid in sids <==> sid in sidsV {
      SpentAlike(w, v, e.presented, sid);
    }
    RevocationsAgree(w, v, StepRead(w, policy, auditing, e).0, StepRead(v, policy, auditing, e).0, sids, sidsV);
  }

  lemma SpentAlike(w: World, v: World, digest: Digest, sid: Uuid)
    requires Agree(w, v) && Useful(w, sid)
    ensures SpentHere(w.db, digest, sid) <==> SpentHere(v.db, digest, sid)
  {
    forall id | id in v.db.tokens && v.db.tokens[id].session == sid
      ensures id in w.db.tokens && w.db.tokens[id] == v.db.tokens[id]
    {
      UsefulToken(w, v, id);
    }
  }

  lemma AddingRequestAgrees(w: World, v: World, next: World, nextV: World, request: nat)
    requires Agree(w, v) && request in next.pending && request !in w.pending
    requires next.db == w.db && nextV.db == v.db && next.clock == nextV.clock == w.clock
    requires next.pending == nextV.pending == w.pending[request := next.pending[request]] && next.history == nextV.history
    requires Contends(next, request) && Contends(nextV, request)
    requires ActiveIn(w.db.sessions, next.pending[request].session.id, w.clock)
    ensures Agree(next, nextV)
  {
    forall r | r != request ensures (Contends(next, r) <==> Contends(w, r)) && (Contends(nextV, r) <==> Contends(v, r)) {}
    forall sid ensures Useful(next, sid) <==> Useful(w, sid) {
      if Contended(w, sid) {
        var r :| Contends(w, r) && w.pending[r].session.id == sid;
        assert Contends(next, r) && next.pending[r].session.id == sid;
      }
      if Contended(next, sid) {
        var r :| Contends(next, r) && next.pending[r].session.id == sid;
        assert r != request ==> Contends(w, r);
      }
    }
    assert SessionsAgree(next, nextV);
    assert TokensAgree(next, nextV);
  }

  // ---------- commits ----------

  /** In a reachable world the requests that win are exactly the contenders. */
  lemma ContendersWin(w: World, request: nat)
    requires Fit(w) && request in w.pending
    ensures RefreshCommit(w.db, w.pending[request]).Success? <==> Contends(w, request)
    ensures Contends(w, request) ==> RefreshCommit(w.db, w.pending[request]).value == AfterRotation(w.db, w.pending[request])
  {
    var p := w.pending[request];
    CommitRotates(w, request);
    assert PreparedFits(w, p);
    if Contends(w, request) {
      assert w.db.tokens[p.current.id].SameCredential(p.current);
      NoSuccessorYet(w.db, p);
    }
  }

  /** While the current row is unspent, its successor generation is free. */
  lemma NoSuccessorYet(t: Tables, p: Prepared)
    requires GenerationsOrdered(t) && p.current.id in t.tokens && t.tokens[p.current.id].SameCredential(p.current)
    requires !t.tokens[p.current.id].IsSpent()
    requires p.replacement.session == p.current.session && p.replacement.generation == p.current.generation + 1
    ensures !GenerationTaken(t.tokens, p.replacement.session, p.replacement.generation)
  {
  }

  /** A rotation leaves every other contender what it was, unless it read the same row. */
  lemma RotatingContenders(w: World, next: World, p: Prepared)
    requires p.current.id in w.db.tokens && next.db == AfterRotation(w.db, p) && next.pending == w.pending
    requires p.replacement.id != p.current.id
    requires forall r :: r in w.pending ==> w.pending[r].current.id != p.replacement.id
    ensures forall r :: Contends(next, r) <==> Contends(w, r) && w.pending[r].current.id != p.current.id
  {
  }

  lemma RotatingAgrees(w: World, v: World, next: World, nextV: World, p: Prepared)
    requires Agree(w, v) && ReadsAtHome(w) && p.current.id in w.db.tokens && p.current.id in v.db.tokens
    requires w.db.tokens[p.current.id] == v.db.tokens[p.current.id]
    requires p.replacement.id != p.current.id && forall r :: r in w.pending ==> w.pending[r].current.id != p.replacement.id
    requires next.db == AfterRotation(w.db, p) && nextV.db == AfterRotation(v.db, p)
    requires next.clock == nextV.clock == w.clock && next.pending == nextV.pending == w.pending
    ensures TokensAgree(next, nextV) && SessionsAgree(next, nextV) && ContendersAgree(next, nextV)
  {
    RotatingContenders(w, next, p);
    RotatingContenders(v, nextV, p);
    forall sid | Useful(next, sid) ensures Useful(w, sid) {
      if Contended(next, sid) {
        var r :| Contends(next, r) && next.pending[r].session.id == sid;
        assert Contends(w, r);
      }
    }
    assert SessionsAgree(next, nextV);
    assert TokensAgree(next, nextV);
  }

  /** Dropping a request only makes fewer sessions useful. */
  lemma DroppingAgrees(w: World, v: World, next: World, nextV: World, request: nat)
    requires TokensAgree(w, v) && SessionsAgree(w, v) && ContendersAgree(w, v) && w.clock == v.clock && w.pending == v.pending
    requires next.db == w.db && nextV.db == v.db && next.clock == nextV.clock == w.clock
    requires next.pending == nextV.pending == w.pending - {request} && next.history == nextV.history
    ensures Agree(next, nextV)
  {
    forall r ensures (Contends(next, r) <==> Contends(w, r) && r != request) && (Contends(nextV, r) <==> Contends(v, r) && r != request) {}
    forall sid | Useful(next, sid) ensures Useful(w, sid) {
      if Contended(next, sid) {
        var r :| Contends(next, r) && next.pending[r].session.id == sid;
        assert Contends(w, r);
      }
    }
    assert SessionsAgree(next, nextV);
    assert TokensAgree(next, nextV);
  }

  /** What a request in flight would install is read by no other request. */
  lemma ReplacementUnread(w: World, request: nat)
    requires PendingFits(w) && request in w.pending
    ensures var p := w.pending[request];
      p.replacement.id != p.current.id && forall r :: r in w.pending ==> w.pending[r].current.id != p.replacement.id
  {
    forall r | r in w.pending ensures w.pending[r].current.id != w.pending[request].replacement.id {
      assert Apart(w.pending[request], w.pending[r], request == r);
    }
  }

  lemma AgreeCommit(w: World, v: World, auditing: bool, request: nat)
    requires Fit(w) && Fit(v) && Agree(w, v) && request in w.pending
    ensures Agree(StepCommit(w, auditing, request).0, StepCommit(v, auditing, request).0)
    ensures Granted(StepCommit(w, auditing, request).1) <==> Granted(StepCommit(v, auditing, request).1)
  {
    ContendersWin(w, request);
    ContendersWin(v, request);
    InvReadsAtHome(w);
    ReplacementUnread(w, request);
    CommitEffectsAgree(w, v, auditing, request);
  }

  lemma CommitEffectsAgree(w: World, v: World, auditing: bool, request: nat)
    requires Agree(w, v) && ReadsAtHome(w) && request in w.pending
    requires var p := w.pending[request];
      p.replacement.id != p.current.id && forall r :: r in w.pending ==> w.pending[r].current.id != p.replacement.id
    requires forall x :: x in {w, v} ==>
      && (RefreshCommit(x.db, w.pending[request]).Success? <==> Contends(x, request))
      && (Contends(x, request) ==> RefreshCommit(x.db, w.pending[request]).value == AfterRotation(x.db, w.pending[request]))
    ensures Agree(StepCommit(w, auditing, request).0, StepCommit(v, auditing, request).0)
    ensures Granted(StepCommit(w, auditing, request).1) <==> Granted(StepCommit(v, auditing, request).1)
  {
    var p := w.pending[request];
    assert w in {w, v} && v in {w, v};
    var next := StepCommit(w, auditing, request).0;
    var nextV := StepCommit(v, auditing, request).0;
    var midW := w.(db := next.db);
    var midV := v.(db := nextV.db);
    assert Contends(w, request) <==> Contends(v, request);
    if Contends(w, request) {
      ContenderRows(w, v, request);
      RotatingAgrees(w, v, midW, midV, p);
    }
    DroppingAgrees(midW, midV, next, nextV, request);
  }

  // ---------- runs ----------

  lemma StepKeepsFit(w: World, policy: Policy, auditing: bool, e: Event)
    requires Fit(w) && policy.Valid() && Enabled(w, e)
    ensures Fit(Step(w, policy, auditing, e).0)
  {
    StepKeepsInv(w, policy, auditing, e);
    StepKeepsGenerations(w, policy, auditing, e);
  }

  lemma QuietStepAgrees(w: World, v: World, policy: Policy, auditing: bool, e: Event)
    requires RowsKnown(w) && RowsKnown(v) && ReadsAtHome(w) && Agree(w, v) && policy.Valid() && Enabled(w, e)
    requires e.Tick? || e.Verify? || e.Logout? || e.LogoutAll?
    ensures Agree(Step(w, policy, auditing, e).0, Step(v, policy, auditing, e).0)
    ensures Granted(Step(w, policy, auditing, e).1) <==> Granted(Step(v, policy, auditing, e).1)
  {
    match e
    case Tick(seconds) => AgreeTick(w, v, policy, auditing, seconds);
    case Logout(user, sid) => AgreeLogout(w, v, auditing, user, sid);
    case LogoutAll(user) => AgreeLogoutAll(w, v, auditing, user);
    case Verify(user, sid) => AgreeVerify(w, v, user, sid);
  }

  lemma StepAgrees(w: World, v: World, policy: Policy, auditing: bool, e: Event)
    requires Fit(w) && Fit(v) && Agree(w, v) && policy.Valid() && Enabled(w, e) && !e.Clean?
    ensures Enabled(v, e)
    ensures Agree(Step(w, policy, auditing, e).0, Step(v, policy, auditing, e).0)
    ensures Granted(Step(w, policy, auditing, e).1) <==> Granted(Step(v, policy, auditing, e).1)
  {
    InvReadsAtHome(w);
    match e
    case Login(_, _, _, _, _) => AgreeLogin(w, v, policy, auditing, e);
    case Read(_, _, _, _) => AgreeRead(w, v, policy, auditing, e);
    case Commit(request) => AgreeCommit(w, v, auditing, request);
    case _ => QuietStepAgrees(w, v, policy, auditing, e);
  }

  /** The run is possible in both worlds and every step grants in both or in neither. */
  ghost predicate SameGrants(w: World, v: World, policy: Policy, auditing: bool, es: seq<Event>)
    requires Possible(w, policy, auditing, es)
    decreases |es|
  {
    es == [] ||
    (&& Enabled(v, es[0])
     && (Granted(Step(w, policy, auditing, es[0]).1) <==> Granted(Step(v, policy, auditing, es[0]).1))
     && SameGrants(Step(w, policy, auditing, es[0]).0, Step(v, policy, auditing, es[0]).0, policy, auditing, es[1..]))
  }

  lemma {:induction false} RunAgrees(w: World, v: World, policy: Policy, auditing: bool, es: seq<Event>)
    requires Fit(w) && Fit(v) && Agree(w, v) && policy.Valid() && Possible(w, policy, auditing, es) && WithoutCleanup(es)
    ensures SameGrants(w, v, policy, auditing, es)
    decreases |es|
  {
    if es != [] {
      assert !es[0].Clean?;
      StepAgrees(w, v, policy, auditing, es[0]);
      StepKeepsFit(w, policy, auditing, es[0]);
      StepKeepsFit(v, policy, auditing, es[0]);
      RunAgrees(Step(w, policy, auditing, es[0]).0, Step(v, policy, auditing, es[0]).0, policy, auditing, es[1..]);
    }
  }

  // ---------- when cleanup is invisible ----------

  /** No later refresh or access verification can tell the two worlds apart. */
  ghost predicate Indistinguishable(w: World, v: World, policy: Policy, auditing: bool) {
    forall es :: WithoutCleanup(es) && Possible(w, policy, auditing, es) ==> SameGrants(w, v, policy, auditing, es)
  }

  /** A deletion of these tokens and sessions takes no spent token of a session that can still
      answer, and no token or session of a request in flight that can still win. */
  ghost predicate Traceless(w: World, tokens: set<Uuid>, sessions: set<Uuid>) {
    && (forall id :: id in tokens && id in w.db.tokens && w.db.tokens[id].IsSpent() ==> !Useful(w, w.db.tokens[id].session))
    && (forall r :: Contends(w, r) ==> w.pending[r].current.id !in tokens && w.pending[r].session.id !in sessions)
  }

  /** What a caller can look up before a cleanup: its two batches of expired rows are traceless. */
  ghost predicate LeavesNoTrace(w: World, e: Event)
    requires e.Clean?
  {
    Traceless(w, ExpiredTokenBatch(w.db, w.clock, e.limit), ExpiredSessionBatch(w.db, w.clock - e.expiredRetention, e.limit))
  }

  /** The same about what is left: every spent token of a useful session, and every row a
      contender read, survived. */
  ghost predicate TraceKept(w: World, after: Tables) {
    && (forall id :: id in w.db.tokens && id !in after.tokens && w.db.tokens[id].IsSpent() ==> !Useful(w, w.db.tokens[id].session))
    && (forall r :: Contends(w, r) ==> w.pending[r].current.id in after.tokens)
  }

  /** The rows left when this batch of tokens and this batch of sessions go, the tokens of
      every deleted session with them; revoked sessions may go besides. */
  ghost predicate Leaves(t: Tables, after: Tables, tokens: set<Uuid>, sessions: set<Uuid>) {
    && (forall sid :: sid in t.sessions && t.sessions[sid].revokedAt.None? ==> (sid !in after.sessions <==> sid in sessions))
    && (forall id :: id in t.tokens ==> (id in after.tokens <==> id !in tokens && t.tokens[id].session in after.sessions))
  }

  lemma ThreeDeletions(t: Tables, tokens: set<Uuid>, sessions: set<Uuid>, revoked: set<Uuid>)
    requires forall id :: id in t.tokens ==> t.tokens[id].session in t.sessions
    requires forall sid :: sid in revoked && sid in t.sessions ==> t.sessions[sid].revokedAt.Some?
    ensures Leaves(t, DeleteSessions(DeleteSessions(DeleteTokens(t, tokens), sessions), revoked), tokens, sessions)
  {
  }

  lemma RevokedBatchIsRevoked(t: Tables, before: Instant, limit: nat)
    ensures forall sid :: sid in RevokedSessionBatch(t, before, limit) ==> sid in t.sessions && t.sessions[sid].revokedAt.Some?
  {
    FirstBatchIs(RevocationTimes(t), Before(RevocationTimes(t), before), limit);
  }

  /** Exactly which rows a successful cleanup deletes. */
  lemma DeletedRows(t: Tables, now: Instant, expiredRetention: nat, revokedRetention: nat, limit: nat)
    requires Cleanup(t, now, expiredRetention, revokedRetention, limit).Success?
    requires forall id :: id in t.tokens ==> t.tokens[id].session in t.sessions
    ensures Leaves(t, Cleanup(t, now, expiredRetention, revokedRetention, limit).value.0,
                   ExpiredTokenBatch(t, now, limit), ExpiredSessionBatch(t, now - expiredRetention, limit))
  {
    var tokens := ExpiredTokenBatch(t, now, limit);
    var t1 := DeleteTokens(t, tokens);
    assert SessionExpiries(t1) == SessionExpiries(t);
    var sessions := ExpiredSessionBatch(t, now - expiredRetention, limit);
    var t2 := DeleteSessions(t1, sessions);
    var revoked := RevokedSessionBatch(t2, now - revokedRetention, limit);
    RevokedBatchIsRevoked(t2, now - revokedRetention, limit);
    ThreeDeletions(t, tokens, sessions, revoked);
    CleanupIsThreeDeletions(t, now, expiredRetention, revokedRetention, limit);
  }

  lemma CleanupIsThreeDeletions(t: Tables, now: Instant, expiredRetention: nat, revokedRetention: nat, limit: nat)
    requires Cleanup(t, now, expiredRetention, revokedRetention, limit).Success?
    ensures var t1 := DeleteTokens(t, ExpiredTokenBatch(t, now, limit));
      var t2 := DeleteSessions(t1, ExpiredSessionBatch(t, now - expiredRetention, limit));
      Cleanup(t, now, expiredRetention, revokedRetention, limit).value.0
        == DeleteSessions(t2, RevokedSessionBatch(t2, now - revokedRetention, limit))
  {
    assert SessionExpiries(DeleteTokens(t, ExpiredTokenBatch(t, now, limit))) == SessionExpiries(t);
  }

  lemma TraceFollowsBatches(w: World, after: Tables, tokens: set<Uuid>, sessions: set<Uuid>)
    requires ReadsAtHome(w) && forall id :: id in w.db.tokens ==> w.db.tokens[id].session in w.db.sessions
    requires Leaves(w.db, after, tokens, sessions)
    requires forall x :: x in sessions && x in w.db.sessions ==> w.db.sessions[x].IsExpired(w.clock)
    ensures Traceless(w, tokens, sessions) <==> TraceKept(w, after)
  {
    forall r | Contends(w, r)
      ensures w.pending[r].current.id in after.tokens <==> w.pending[r].current.id !in tokens && w.pending[r].session.id !in sessions
    {
      assert Contended(w, w.pending[r].session.id);
    }
    if Traceless(w, tokens, sessions) {
      forall id | id in w.db.tokens && id !in after.tokens && w.db.tokens[id].IsSpent() ensures !Useful(w, w.db.tokens[id].session) {
        var sid := w.db.tokens[id].session;
        if Useful(w, sid) { SurvivesBatch(w, after, sessions, sid); }
      }
    }
  }

  lemma SurvivesBatch(w: World, after: Tables, sessions: set<Uuid>, sid: Uuid)
    requires Useful(w, sid) && sid in w.db.sessions
    requires w.db.sessions[sid].revokedAt.None? ==> (sid !in after.sessions <==> sid in sessions)
    requires forall r :: Contends(w, r) ==> w.pending[r].session.id !in sessions
    requires forall x :: x in sessions && x in w.db.sessions ==> w.db.sessions[x].IsExpired(w.clock)
    ensures sid in after.sessions
  {
  }

  /** The check before the call decides what survives it. */
  lemma TraceIsPredictable(w: World, e: Event, after: Tables)
    requires ReadsAtHome(w) && (forall id :: id in w.db.tokens ==> w.db.tokens[id].session in w.db.sessions) && e.Clean?
    requires Leaves(w.db, after, ExpiredTokenBatch(w.db, w.clock, e.limit), ExpiredSessionBatch(w.db, w.clock - e.expiredRetention, e.limit))
    ensures LeavesNoTrace(w, e) <==> TraceKept(w, after)
  {
    var tokens, sessions := ExpiredTokenBatch(w.db, w.clock, e.limit), ExpiredSessionBatch(w.db, w.clock - e.expiredRetention, e.limit);
    ExpiredBatch(w.db, w.clock, e.expiredRetention, e.limit);
    TraceFollowsBatches(w, after, tokens, sessions);
  }

  lemma ExpiredBatch(t: Tables, now: Instant, retention: nat, limit: nat)
    ensures forall x :: x in ExpiredSessionBatch(t, now - retention, limit) ==> x in t.sessions && t.sessions[x].IsExpired(now)
  {
    FirstBatchIs(SessionExpiries(t), Before(SessionExpiries(t), now - retention), limit);
  }

  /** A session that can still answer outlives the cleanup when its contenders' rows do. */
  lemma UsefulSessionSurvives(w: World, after: Tables, sid: Uuid)
    requires SafeDeletion(w.db, after, w.clock) && Useful(w, sid) && ReadsAtHome(w)
    requires forall r :: Contends(w, r) ==> w.pending[r].current.id in after.tokens
    requires forall id :: id in after.tokens ==> after.tokens[id].session in after.sessions
    ensures sid in after.sessions && after.sessions[sid] == w.db.sessions[sid]
  {
    if Contended(w, sid) {
      var r :| Contends(w, r) && w.pending[r].session.id == sid;
      assert after.tokens[w.pending[r].current.id].session == sid;
    }
  }

  lemma KeptTraceAgrees(w: World, after: Tables)
    requires Fit(w) && SafeDeletion(w.db, after, w.clock) && TraceKept(w, after)
    requires forall id :: id in after.tokens ==> after.tokens[id].session in after.sessions
    ensures Agree(w, w.(db := after))
  {
    InvReadsAtHome(w);
    var v := w.(db := after);
    forall sid | Useful(w, sid) ensures sid in after.sessions && after.sessions[sid] == w.db.sessions[sid] {
      UsefulSessionSurvives(w, after, sid);
    }
    assert SessionsAgree(w, v);
    assert TokensAgree(w, v);
    forall r ensures Contends(w, r) <==> Contends(v, r) {
      if Contends(w, r) { assert Contended(w, w.pending[r].session.id); }
    }
  }

  /** This run tells the two worlds apart. */
  ghost predicate TellsApart(w: World, v: World, policy: Policy, auditing: bool, es: seq<Event>) {
    WithoutCleanup(es) && Possible(w, policy, auditing, es) && !SameGrants(w, v, policy, auditing, es)
  }

  /** A deleted spent token of a useful session, or a contender without its row, is noticed. */
  lemma LostTraceIsNoticed(w: World, policy: Policy, auditing: bool, after: Tables) returns (es: seq<Event>)
    requires Fit(w) && Fit(w.(db := after)) && policy.Valid() && SafeDeletion(w.db, after, w.clock) && !TraceKept(w, after)
    ensures TellsApart(w, w.(db := after), policy, auditing, es)
  {
    if r :| Contends(w, r) && w.pending[r].current.id !in after.tokens {
      es := LostContenderIsNoticed(w, policy, auditing, after, r);
    } else {
      var id :| id in w.db.tokens && id !in after.tokens && w.db.tokens[id].IsSpent() && Useful(w, w.db.tokens[id].session);
      es := LostEvidenceIsNoticed(w, policy, auditing, after, id);
    }
  }

  /** The request whose row is gone fails where it would have won. */
  lemma LostContenderIsNoticed(w: World, policy: Policy, auditing: bool, after: Tables, r: nat) returns (es: seq<Event>)
    requires Fit(w) && Fit(w.(db := after)) && Contends(w, r) && w.pending[r].current.id !in after.tokens
    ensures es == [Commit(r)] && TellsApart(w, w.(db := after), policy, auditing, es)
  {
    es := [Commit(r)];
    ContendersWin(w, r);
    ContendersWin(w.(db := after), r);
    OneStep(w, w.(db := after), policy, auditing, Commit(r));
  }

  /** Replaying the deleted token kills the session where its row survives... */
  lemma ReplayKills(w: World, policy: Policy, auditing: bool, id: Uuid, read: Event)
    requires Inv(w) && id in w.db.tokens && w.db.tokens[id].IsSpent() && policy.Valid()
    requires read.Read? && Enabled(w, read) && read.presented == w.db.tokens[id].digest
    ensures var next := Step(w, policy, auditing, read).0;
      && !Granted(Step(w, policy, auditing, read).1)
      && next.pending == w.pending && next.clock == w.clock
      && w.db.tokens[id].session in next.db.sessions && next.db.sessions[w.db.tokens[id].session].revokedAt.Some?
  {
    FindByDigestIs(w.db, id);
    RevokeSessionKeepsRows(w, w.db.tokens[id].session);
  }

  /** ... and passes unnoticed where it was deleted. */
  lemma ReplayUnnoticed(v: World, policy: Policy, auditing: bool, read: Event)
    requires read.Read? && Enabled(v, read) && !HasDigest(v.db, read.presented)
    ensures Step(v, policy, auditing, read) == (v, Rejected(InvalidRefreshToken))
  {
  }

  /** A contender commits where its session lives and fails where it was revoked. */
  lemma DeadCommitsNot(next: World, v: World, auditing: bool, r: nat)
    requires Fit(next) && Fit(v) && Contends(v, r) && !Contends(next, r) && r in next.pending
    ensures Granted(StepCommit(v, auditing, r).1) && !Granted(StepCommit(next, auditing, r).1)
  {
    ContendersWin(next, r);
    ContendersWin(v, r);
  }

  lemma DeadContendsNot(next: World, v: World, r: nat)
    requires v.pending == next.pending && Contends(v, r)
    requires v.pending[r].session.id in next.db.sessions && next.db.sessions[v.pending[r].session.id].revokedAt.Some?
    ensures !Contends(next, r)
  {
  }

  /** The session of a replayed token serves the copy that missed the replay, and only it. */
  lemma DeadServesNot(next: World, v: World, policy: Policy, auditing: bool, sid: Uuid) returns (use: Event)
    requires Fit(next) && Fit(v) && v.pending == next.pending && v.clock == next.clock
    requires Useful(v, sid) && sid in next.db.sessions && next.db.sessions[sid].revokedAt.Some?
    ensures (use.Verify? || use.Commit?) && Enabled(v, use) && Enabled(next, use)
    ensures Granted(Step(v, policy, auditing, use).1) && !Granted(Step(next, policy, auditing, use).1)
  {
    if Contended(v, sid) {
      var r :| Contends(v, r) && v.pending[r].session.id == sid;
      DeadContendsNot(next, v, r);
      DeadCommitsNot(next, v, auditing, r);
      use := Commit(r);
    } else {
      use := Verify(v.db.sessions[sid].user, sid);
    }
  }

  lemma UsefulStaysUseful(w: World, after: Tables, sid: Uuid)
    requires Fit(w) && Agreeable(w, after) && Useful(w, sid)
    ensures Useful(w.(db := after), sid)
  {
    var v := w.(db := after);
    InvReadsAtHome(w);
    UsefulSessionSurvives(w, after, sid);
    if Contended(w, sid) {
      var r :| Contends(w, r) && w.pending[r].session.id == sid;
      assert Contends(v, r) && v.pending[r].session.id == sid;
    }
  }

  /** Replaying a spent token whose row one world has lost. */
  lemma ReplayDiverges(w: World, policy: Policy, auditing: bool, after: Tables, id: Uuid) returns (read: Event)
    requires Inv(w) && SafeDeletion(w.db, after, w.clock) && policy.Valid()
    requires id in w.db.tokens && id !in after.tokens && w.db.tokens[id].IsSpent()
    ensures read.Read? && Enabled(w, read) && !Granted(Step(w, policy, auditing, read).1)
    ensures Step(w.(db := after), policy, auditing, read) == (w.(db := after), Rejected(InvalidRefreshToken))
    ensures var next := Step(w, policy, auditing, read).0;
      && next.pending == w.pending && next.clock == w.clock
      && w.db.tokens[id].session in next.db.sessions && next.db.sessions[w.db.tokens[id].session].revokedAt.Some?
  {
    var digest := w.db.tokens[id].digest;
    var request := FreshNat(w.pending.Keys);
    var newId := FreshNat(w.history.ids);
    var newDigest := FreshNat(w.history.digests + {digest});
    read := Read(request, digest, newId, newDigest);
    assert !HasDigest(after, digest);
    ReplayUnnoticed(w.(db := after), policy, auditing, read);
    ReplayKills(w, policy, auditing, id, read);
  }

  lemma AfterReplay(w: World, policy: Policy, auditing: bool, after: Tables, id: Uuid) returns (read: Event, next: World)
    requires Fit(w) && SafeDeletion(w.db, after, w.clock) && policy.Valid()
    requires id in w.db.tokens && id !in after.tokens && w.db.tokens[id].IsSpent()
    ensures read.Read? && Enabled(w, read) && Enabled(w.(db := after), read)
    ensures Step(w.(db := after), policy, auditing, read) == (w.(db := after), Rejected(InvalidRefreshToken))
    ensures next == Step(w, policy, auditing, read).0 && !Granted(Step(w, policy, auditing, read).1) && Fit(next)
    ensures next.pending == w.pending && next.clock == w.clock
    ensures w.db.tokens[id].session in next.db.sessions && next.db.sessions[w.db.tokens[id].session].revokedAt.Some?
  {
    read := ReplayDiverges(w, policy, auditing, after, id);
    StepKeepsFit(w, policy, auditing, read);
    next := Step(w, policy, auditing, read).0;
  }

  /** Two steps that tell them apart: replay the deleted token, then use its session, by
      verifying an access token while it is active or by the commit that could still win. */
  lemma ReplayThenUse(w: World, policy: Policy, auditing: bool, after: Tables, id: Uuid) returns (read: Event, use: Event, next: World)
    requires Fit(w) && Fit(w.(db := after)) && policy.Valid() && Agreeable(w, after)
    requires id in w.db.tokens && id !in after.tokens && w.db.tokens[id].IsSpent() && Useful(w, w.db.tokens[id].session)
    ensures !read.Clean? && Enabled(w, read) && Enabled(w.(db := after), read) && next == Step(w, policy, auditing, read).0
    ensures Step(w.(db := after), policy, auditing, read).0 == w.(db := after)
    ensures !use.Clean? && Enabled(next, use) && Enabled(w.(db := after), use)
    ensures !Granted(Step(next, policy, auditing, use).1) && Granted(Step(w.(db := after), policy, auditing, use).1)
  {
    UsefulStaysUseful(w, after, w.db.tokens[id].session);
    read, next := AfterReplay(w, policy, auditing, after, id);
    use := DeadServesNot(next, w.(db := after), policy, auditing, w.db.tokens[id].session);
  }

  lemma LostEvidenceIsNoticed(w: World, policy: Policy, auditing: bool, after: Tables, id: Uuid) returns (es: seq<Event>)
    requires Fit(w) && Fit(w.(db := after)) && policy.Valid() && Agreeable(w, after)
    requires id in w.db.tokens && id !in after.tokens && w.db.tokens[id].IsSpent() && Useful(w, w.db.tokens[id].session)
    ensures TellsApart(w, w.(db := after), policy, auditing, es)
  {
    var read, use, next := ReplayThenUse(w, policy, auditing, after, id);
    es := TwoSteps(w, w.(db := after), policy, auditing, read, use);
  }

  lemma OneStep(w: World, v: World, policy: Policy, auditing: bool, e: Event)
    requires Enabled(w, e) && Enabled(v, e) && !e.Clean?
    requires Granted(Step(w, policy, auditing, e).1) != Granted(Step(v, policy, auditing, e).1)
    ensures TellsApart(w, v, policy, auditing, [e])
  {
    assert [e][1..] == [];
  }

  lemma TwoSteps(w: World, v: World, policy: Policy, auditing: bool, first: Event, second: Event) returns (es: seq<Event>)
    requires !first.Clean? && !second.Clean?
    requires Enabled(w, first) && Enabled(v, first) && Enabled(Step(w, policy, auditing, first).0, second)
    requires Enabled(Step(v, policy, auditing, first).0, second)
    requires Granted(Step(Step(w, policy, auditing, first).0, policy, auditing, second).1)
      != Granted(Step(Step(v, policy, auditing, first).0, policy, auditing, second).1)
    ensures TellsApart(w, v, policy, auditing, es)
  {
    es := [first, second];
    var next := Step(w, policy, auditing, first).0;
    assert es[1..] == [second] && [second][1..] == [];
    assert Possible(next, policy, auditing, [second]);
    assert !SameGrants(next, Step(v, policy, auditing, first).0, policy, auditing, [second]);
  }

  /** Rows are only deleted, and the rows of everything that can still answer are kept. */
  ghost predicate Agreeable(w: World, after: Tables) {
    && SafeDeletion(w.db, after, w.clock)
    && (forall id :: id in after.tokens ==> after.tokens[id].session in after.sessions)
    && (forall r :: Contends(w, r) ==> w.pending[r].current.id in after.tokens)
  }

  lemma CleanedStep(w: World, policy: Policy, auditing: bool, e: Event) returns (after: Tables)
    requires e.Clean? && Step(w, policy, auditing, e).1.Cleaned?
    ensures Cleanup(w.db, w.clock, e.expiredRetention, e.revokedRetention, e.limit).Success?
    ensures after == Cleanup(w.db, w.clock, e.expiredRetention, e.revokedRetention, e.limit).value.0
    ensures Step(w, policy, auditing, e).0 == w.(db := after)
  {
    after := Step(w, policy, auditing, e).0.db;
  }

  /** Rows are only deleted, and exactly those of the two expired batches and revoked sessions. */
  ghost predicate CleanedTo(t: Tables, e: Event, now: Instant, after: Tables)
    requires e.Clean?
  {
    && SafeDeletion(t, after, now)
    && Leaves(t, after, ExpiredTokenBatch(t, now, e.limit), ExpiredSessionBatch(t, now - e.expiredRetention, e.limit))
  }

  lemma CleanedRows(t: Tables, e: Event, now: Instant, after: Tables)
    requires e.Clean? && Cleanup(t, now, e.expiredRetention, e.revokedRetention, e.limit).Success?
    requires after == Cleanup(t, now, e.expiredRetention, e.revokedRetention, e.limit).value.0
    requires forall id :: id in t.tokens ==> t.tokens[id].session in t.sessions
    ensures SafeDeletion(t, after, now)
    ensures Leaves(t, after, ExpiredTokenBatch(t, now, e.limit), ExpiredSessionBatch(t, now - e.expiredRetention, e.limit))
  {
    DeletedRows(t, now, e.expiredRetention, e.revokedRetention, e.limit);
    CleanupIsBoundedAndSafe(t, now, e.expiredRetention, e.revokedRetention, e.limit);
  }

  /** What a successful cleanup step is known by. */
  lemma CleanedTables(w: World, policy: Policy, auditing: bool, e: Event) returns (after: Tables)
    requires (forall id :: id in w.db.tokens ==> w.db.tokens[id].session in w.db.sessions)
    requires e.Clean? && Step(w, policy, auditing, e).1.Cleaned?
    ensures Step(w, policy, auditing, e).0 == w.(db := after) && CleanedTo(w.db, e, w.clock, after)
  {
    after := CleanedStep(w, policy, auditing, e);
    CleanedRows(w.db, e, w.clock, after);
  }

  /** Exact condition: a cleanup is invisible to every later request, those in flight
      included, if and only if its expired batches were traceless. */
  lemma CleanupInvisibleIff(w: World, policy: Policy, auditing: bool, e: Event)
    requires Fit(w) && policy.Valid() && e.Clean? && Step(w, policy, auditing, e).1.Cleaned?
    ensures Indistinguishable(w, Step(w, policy, auditing, e).0, policy, auditing) <==> LeavesNoTrace(w, e)
  {
    var after := CleanedTables(w, policy, auditing, e);
    StepKeepsFit(w, policy, auditing, e);
    InvReadsAtHome(w);
    TraceIsPredictable(w, e, after);
    IndistinguishableIff(w, policy, auditing, after);
  }

  lemma IndistinguishableIff(w: World, policy: Policy, auditing: bool, after: Tables)
    requires Fit(w) && Fit(w.(db := after)) && policy.Valid() && SafeDeletion(w.db, after, w.clock)
    ensures Indistinguishable(w, w.(db := after), policy, auditing) <==> TraceKept(w, after)
  {
    var v := w.(db := after);
    if TraceKept(w, after) {
      KeptTraceAgrees(w, after);
      forall es | WithoutCleanup(es) && Possible(w, policy, auditing, es) ensures SameGrants(w, v, policy, auditing, es) {
        RunAgrees(w, v, policy, auditing, es);
      }
    } else {
      var es := LostTraceIsNoticed(w, policy, auditing, after);
    }
  }

  lemma TokensExpireWithSessions(w: World, policy: Policy)
    requires Consistent(w.db) && ExpiriesExact(w, policy) && policy.refreshLifetime == policy.sessionLifetime
    ensures forall id :: id in w.db.tokens ==>
      w.db.tokens[id].session in w.db.sessions && w.db.tokens[id].expiresAt == w.db.sessions[w.db.tokens[id].session].expiresAt
  {
    forall id | id in w.db.tokens ensures w.db.tokens[id].expiresAt == w.db.sessions[w.db.tokens[id].session].expiresAt {
      assert ExpiryExact(w.db.tokens[id], w.db.sessions[w.db.tokens[id].session], policy);
    }
  }

  lemma ExpiredTokens(t: Tables, now: Instant, limit: nat)
    ensures forall id :: id in ExpiredTokenBatch(t, now, limit) ==> id in t.tokens && t.tokens[id].IsExpired(now)
  {
    FirstBatchIs(TokenExpiries(t), Before(TokenExpiries(t), now), limit);
  }

  lemma ExpiredRowsLeaveNoTrace(w: World, tokens: set<Uuid>, sessions: set<Uuid>)
    requires ReadsAtHome(w) && forall r :: Contends(w, r) ==> ActiveIn(w.db.sessions, w.pending[r].session.id, w.clock)
    requires forall id :: id in tokens ==> id in w.db.tokens && !ActiveIn(w.db.sessions, w.db.tokens[id].session, w.clock)
    requires forall sid :: sid in sessions ==> sid in w.db.sessions && w.db.sessions[sid].IsExpired(w.clock)
    ensures Traceless(w, tokens, sessions)
  {
  }

  /** With equal lifetimes, the defaults, every token expires with its session: a cleanup is
      invisible while no refresh has stayed in flight past the expiry of its session. */
  lemma EqualLifetimesLeaveNoTrace(w: World, policy: Policy, e: Event)
    requires Fit(w) && ExpiriesExact(w, policy) && policy.refreshLifetime == policy.sessionLifetime && e.Clean?
    requires forall r :: Contends(w, r) ==> ActiveIn(w.db.sessions, w.pending[r].session.id, w.clock)
    ensures LeavesNoTrace(w, e)
  {
    InvReadsAtHome(w);
    TokensExpireWithSessions(w, policy);
    ExpiredTokens(w.db, w.clock, e.limit);
    ExpiredBatch(w.db, w.clock, e.expiredRetention, e.limit);
    ExpiredRowsLeaveNoTrace(w, ExpiredTokenBatch(w.db, w.clock, e.limit), ExpiredSessionBatch(w.db, w.clock - e.expiredRetention, e.limit));
  }
}
