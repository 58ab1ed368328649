/** The session repository over one database transaction, and the use cases that drive
    it: statements change the working tables, commit publishes them, rollback discards
    them. */
module SessionStore {
  import opened Common
  import opened SessionRecords
  import opened SessionTables
  import opened SessionLifecycle
  import opened SessionRuns
  import opened SessionRetention

  predicate Unspent(t: RefreshToken) {
    t.usedAt.None? && t.revokedAt.None?
  }

  /** Every current token of the session is marked; other sessions' tokens, and those already
      spent or revoked, stay as they were. */
  predicate CurrentRevoked(before: map<Uuid, RefreshToken>, after: map<Uuid, RefreshToken>, sid: Uuid, at: Instant) {
    && before.Keys == after.Keys
    && (forall id :: id in before && before[id].session == sid && Unspent(before[id]) ==> after[id] == before[id].(revokedAt := Some(at)))
    && (forall id :: id in before && (before[id].session != sid || !Unspent(before[id])) ==> after[id] == before[id])
  }

  lemma CurrentRevokedIs(before: map<Uuid, RefreshToken>, after: map<Uuid, RefreshToken>, sid: Uuid, at: Instant)
    requires CurrentRevoked(before, after, sid, at)
    ensures after == RevokeTokens(before, {sid}, at)
  {
    forall id | id in before ensures after[id] == RevokeTokens(before, {sid}, at)[id] {}
  }

  class SessionRepository {
    var committed: Tables
    var working: Tables

    constructor (tables: Tables)
      ensures committed == tables && working == tables
    {
      committed := tables;
      working := tables;
    }

    method Commit()
      modifies this
      ensures committed == old(working) && working == old(working)
    {
      committed := working;
    }

    method Rollback()
      modifies this
      ensures committed == old(committed) && working == old(committed)
    {
      working := committed;
    }

    method Add(session: AuthSession, token: RefreshToken) returns (error: Option<StoreError>)
      modifies this
      ensures committed == old(committed)
      ensures error.None? <==>
        session.id !in old(working).sessions
        && Insertable(old(working).(sessions := old(working).sessions[session.id := session]), token)
      ensures error.None? ==>
        working == Tables(old(working).sessions[session.id := session], old(working).tokens[token.id := token])
      ensures error.Some? ==>
        && working == committed
        && error.value == if session.id !in old(working).sessions && DigestTaken(old(working).tokens, token.digest)
                          then DuplicateDigest else MissingSession
    {
      var before := working;
      if session.id in before.sessions {
        Rollback();
        return Some(MissingSession);
      }
      var staged := before.(sessions := before.sessions[session.id := session]);
      if !Insertable(staged, token) {
        Rollback();
        return Some(if DigestTaken(before.tokens, token.digest) then DuplicateDigest else MissingSession);
      }
      working := staged.(tokens := staged.tokens[token.id := token]);
      error := None;
    }

    method GetRefreshTokenByDigest(digest: Digest) returns (found: Option<RefreshToken>)
      requires UniqueDigests(working.tokens)
      ensures found == FindByDigest(working, digest)
    {
      found := None;
      if id :| id in working.tokens && working.tokens[id].digest == digest {
        FindByDigestIs(working, id);
        found := Some(working.tokens[id]);
      }
    }

    method GetActiveById(sid: Uuid, at: Instant) returns (found: Option<AuthSession>)
      ensures found == if ActiveIn(working.sessions, sid, at) then Some(working.sessions[sid]) else None
    {
      found := if sid in working.sessions && working.sessions[sid].revokedAt.None? && working.sessions[sid].expiresAt > at
               then Some(working.sessions[sid]) else None;
    }

    /** UPDATE ... SET revoked_at WHERE session, unused, unrevoked. */
    method RevokeCurrentRefreshTokens(sid: Uuid, at: Instant)
      modifies this
      ensures committed == old(committed) && working.sessions == old(working).sessions
      ensures CurrentRevoked(old(working).tokens, working.tokens, sid, at)
    {
      working := working.(tokens := RevokeTokens(working.tokens, {sid}, at));
    }

    method Revoke(sid: Uuid, at: Instant) returns (r: Result<AuthSession, StoreError>)
      modifies this
      ensures committed == old(committed)
      ensures match RevokeSession(old(working), sid, at)
              case Failure(e) => r == Failure(e) && working == old(working)
              case Success(t) => working == t && r == Success(t.sessions[sid])
    {
      if sid !in working.sessions { return Failure(MissingSession); }
      var revoked := working.sessions[sid].Revoke(at);
      if revoked.Failure? { return Failure(InvalidRecord(revoked.error)); }
      working := working.(sessions := working.sessions[sid := revoked.value]);
      RevokeCurrentRefreshTokens(sid, at);
      CurrentRevokedIs(old(working).tokens, working.tokens, sid, at);
      r := Success(working.sessions[sid]);
    }

    /** One UPDATE over the sessions, then one over the tokens of each session it changed. */
    method RevokeAllForUser(user: Uuid, at: Instant) returns (count: nat)
      modifies this
      ensures committed == old(committed)
      ensures working == RevokeAll(old(working), user, at)
      ensures count == |UnrevokedOf(old(working), user)|
    {
      var sids := UnrevokedOf(working, user);
      count := |sids|;
      working := working.(sessions := MarkRevoked(working.sessions, sids, at));
      var todo := sids;
      ghost var done: set<Uuid> := {};
      while todo != {}
        invariant done + todo == sids && done !! todo
        invariant committed == old(committed)
        invariant working.sessions == MarkRevoked(old(working).sessions, sids, at)
        invariant working.tokens == RevokeTokens(old(working).tokens, done, at)
      {
        var sid :| sid in todo;
        RevokeOneMore(old(working).tokens, done, sid, at);
        ghost var before := working.tokens;
        RevokeCurrentRefreshTokens(sid, at);
        CurrentRevokedIs(before, working.tokens, sid, at);
        todo := todo - {sid};
        done := done + {sid};
      }
      assert done == sids;
    }

    method RotateRefreshToken(sid: Uuid, digest: Digest, generation: nat, replacement: RefreshToken, at: Instant)
      returns (error: Option<StoreError>)
      modifies this
      ensures committed == old(committed)
      ensures match Rotate(old(working), sid, digest, generation, replacement, at)
              case Failure(e) => error == Some(e) && working == committed
              case Success(t) => error == None && working == t
    {
      if !Insertable(working, replacement) {
        var reason := if DigestTaken(working.tokens, replacement.digest) then DuplicateDigest else StaleRotation;
        Rollback();
        return Some(reason);
      }
      working := working.(tokens := working.tokens[replacement.id := replacement]);
      var rows := RotationRows(working, sid, digest, generation, at);
      working := working.(tokens := MarkUsed(working.tokens, rows, at, replacement.id));
      if |rows| != 1 {
        Rollback();
        return Some(StaleRotation);
      }
      error := None;
    }

    // ---------- cleanup statements ----------

    method DeleteExpiredRefreshTokenRows(before: Instant, limit: nat) returns (r: Result<nat, StoreError>)
      modifies this
      ensures committed == old(committed)
      ensures Leaving(r, working) == DeleteExpiredTokens(old(working), before, limit)
      ensures r.Failure? ==> working == old(working)
    {
      var keys := TokenExpiries(working);
      var ids := SelectBatch(keys, Before(keys, before), limit);
      var after := DeleteTokens(working, ids);
      if !ReferencesHold(after) { return Failure(DanglingReference); }
      working := after;
      r := Success(|ids|);
    }

    method DeleteExpiredSessionRows(before: Instant, limit: nat) returns (r: Result<nat, StoreError>)
      modifies this
      ensures committed == old(committed)
      ensures Leaving(r, working) == DeleteExpiredSessions(old(working), before, limit)
      ensures r.Failure? ==> working == old(working)
    {
      var keys := SessionExpiries(working);
      var ids := SelectBatch(keys, Before(keys, before), limit);
      var after := DeleteSessions(working, ids);
      if !ReferencesHold(after) { return Failure(DanglingReference); }
      working := after;
      r := Success(|ids|);
    }

    method DeleteRevokedSessionRows(before: Instant, limit: nat) returns (r: Result<nat, StoreError>)
      modifies this
      ensures committed == old(committed)
      ensures Leaving(r, working) == DeleteRevokedSessions(old(working), before, limit)
      ensures r.Failure? ==> working == old(working)
    {
      var keys := RevocationTimes(working);
      var ids := SelectBatch(keys, Before(keys, before), limit);
      var after := DeleteSessions(working, ids);
      if !ReferencesHold(after) { return Failure(DanglingReference); }
      working := after;
      r := Success(|ids|);
    }
  }

  lemma RevokeOneMore(tokens: map<Uuid, RefreshToken>, done: set<Uuid>, sid: Uuid, at: Instant)
    ensures RevokeTokens(RevokeTokens(tokens, done, at), {sid}, at) == RevokeTokens(tokens, done + {sid}, at)
  {
  }

  method PickEarliest(keys: map<Uuid, Instant>, ids: set<Uuid>) returns (first: Uuid)
    requires ids != {} && ids <= keys.Keys
    ensures IsEarliest(keys, ids, first)
  {
    ghost var earliest := EarliestExists(keys, ids);
    first :| first in ids && forall x :: x in ids && x != first ==> OrderedBefore(keys, first, x);
  }

  /** Row ids in ORDER BY key, id, cut off at the limit. */
  method SelectBatch(keys: map<Uuid, Instant>, candidates: set<Uuid>, limit: nat) returns (ids: set<Uuid>)
    requires candidates <= keys.Keys
    ensures ids == FirstBatch(keys, candidates, limit)
  {
    ids := {};
    var rest := candidates;
    var left := limit;
    while left > 0 && rest != {}
      invariant ids + rest == candidates && ids !! rest
      invariant |ids| + left == limit
      invariant forall x, y :: x in ids && y in rest ==> OrderedBefore(keys, x, y)
      decreases left
    {
      var first := PickEarliest(keys, rest);
      ids := ids + {first};
      rest := rest - {first};
      left := left - 1;
    }
    assert |candidates| == |ids| + |rest|;
    assert rest == candidates - ids;
    FirstBatchIs(keys, candidates, limit);
    FirstBatchIsUnique(keys, candidates, limit, ids, FirstBatch(keys, candidates, limit));
  }

  /** The session use cases; time and random values are arguments. */
  class SessionService {
    const repository: SessionRepository
    const policy: Policy
    const auditing: bool
    var audit: seq<AuditEntry>

    constructor (repository: SessionRepository, policy: Policy, auditing: bool)
      requires policy.Valid()
      ensures this.repository == repository && this.policy == policy && this.auditing == auditing && audit == []
    {
      this.repository := repository;
      this.policy := policy;
      this.auditing := auditing;
      audit := [];
    }

    /** No statement is waiting to be committed. */
    predicate Clean()
      reads this, repository
    {
      repository.working == repository.committed
    }

    method Record(entries: seq<AuditEntry>)
      modifies this`audit
      ensures audit == Log(old(audit), entries, auditing)
    {
      if auditing { audit := audit + entries; }
    }

    method StartUserSession(user: Uuid, sid: Uuid, tokenId: Uuid, family: Uuid, digest: Digest, now: Instant)
      returns (error: Option<UseCaseError>)
      requires Clean()
      modifies repository, this`audit
      ensures Clean()
      ensures match StartSession(old(repository.committed), policy, user, sid, tokenId, family, digest, now)
              case Failure(e) => error == Some(e) && repository.committed == old(repository.committed) && audit == old(audit)
              case Success(t) => && error == None && repository.committed == t
                                 && audit == Log(old(audit), [LoginSucceeded(sid), SessionCreated(sid)], auditing)
    {
      var session := CreateSession(sid, user, now, now + policy.sessionLifetime);
      if session.Failure? { return Some(UseCaseError.Record(session.error)); }
      var token := IssueInitial(tokenId, sid, family, digest, now, now + policy.refreshLifetime);
      if token.Failure? { return Some(UseCaseError.Record(token.error)); }
      var refused := repository.Add(session.value, token.value);
      if refused.Some? {
        repository.Rollback();
        return Some(Store(refused.value));
      }
      Record([LoginSucceeded(sid), SessionCreated(sid)]);
      repository.Commit();
      error := None;
    }

    /** The read phase; a detected replay is revoked and committed here. */
    method ReadRefresh(digest: Digest, now: Instant, newId: Uuid, newDigest: Digest) returns (outcome: ReadOutcome)
      requires Clean() && UniqueDigests(repository.committed.tokens)
      modifies repository, this`audit
      ensures Clean()
      ensures var (t, o) := RefreshRead(old(repository.committed), policy, digest, now, newId, newDigest);
        outcome == o && repository.committed == t
      ensures outcome.ReplayRevoked? ==>
        var sid := FindByDigest(old(repository.committed), digest).value.session;
        audit == Log(old(audit), [ReplayDetected(sid), SessionRevoked(sid)], auditing)
      ensures !outcome.ReplayRevoked? ==> audit == old(audit)
    {
      var found := repository.GetRefreshTokenByDigest(digest);
      if found.None? { return Refused(InvalidRefreshToken); }
      var current := found.value;
      if current.usedAt.Some? || current.replacedBy.Some? {
        var revoked := repository.Revoke(current.session, now);
        if revoked.Failure? {
          repository.Rollback();
          return Refused(Store(revoked.error));
        }
        Record([ReplayDetected(current.session), SessionRevoked(current.session)]);
        repository.Commit();
        return ReplayRevoked;
      }
      if current.revokedAt.Some? { return Refused(InvalidRefreshToken); }
      if current.IsExpired(now) { return Refused(ExpiredRefreshToken); }
      var session := repository.GetActiveById(current.session, now);
      if session.None? { return Refused(InvalidRefreshToken); }
      var expires := Min(now + policy.refreshLifetime, session.value.expiresAt);
      var replacement := current.Replacement(newId, newDigest, now, expires);
      if replacement.Failure? { return Refused(UseCaseError.Record(replacement.error)); }
      outcome := Ready(Prepared(current, session.value, replacement.value, now));
    }

    /** The write phase, ending in the commit or the rollback. */
    method CommitRefresh(p: Prepared) returns (error: Option<UseCaseError>)
      requires Clean()
      modifies repository, this`audit
      ensures Clean()
      ensures match RefreshCommit(old(repository.committed), p)
              case Failure(e) => error == Some(e) && repository.committed == old(repository.committed) && audit == old(audit)
              case Success(t) => && error == None && repository.committed == t
                                 && audit == Log(old(audit), [SessionRefreshed(p.session.id)], auditing)
    {
      var refused := repository.RotateRefreshToken(p.session.id, p.current.digest, p.current.generation, p.replacement, p.rotatedAt);
      if refused.Some? {
        repository.Rollback();
        return Some(Store(refused.value));
      }
      Record([SessionRefreshed(p.session.id)]);
      repository.Commit();
      error := None;
    }

    method Logout(user: Uuid, sid: Uuid, now: Instant) returns (error: Option<UseCaseError>)
      requires Clean()
      modifies repository, this`audit
      ensures Clean()
      ensures match LogoutSession(old(repository.committed), user, sid, now)
              case Failure(e) => error == Some(e) && repository.committed == old(repository.committed) && audit == old(audit)
              case Success(t) => && error == None && repository.committed == t
                                 && audit == Log(old(audit), [SessionRevoked(sid)], auditing)
    {
      if sid !in repository.working.sessions { return Some(SessionNotFound); }
      if repository.working.sessions[sid].user != user { return Some(SessionOwnership); }
      var revoked := repository.Revoke(sid, now);
      if revoked.Failure? {
        repository.Rollback();
        return Some(Store(revoked.error));
      }
      Record([SessionRevoked(sid)]);
      repository.Commit();
      error := None;
    }

    method LogoutAll(user: Uuid, now: Instant) returns (revoked: nat)
      requires Clean()
      modifies repository, this`audit
      ensures Clean()
      ensures repository.committed == RevokeAll(old(repository.committed), user, now)
      ensures revoked == |UnrevokedOf(old(repository.committed), user)|
      ensures audit == Log(old(audit), [SessionRevokedAll(user, revoked)], auditing)
    {
      revoked := repository.RevokeAllForUser(user, now);
      Record([SessionRevokedAll(user, revoked)]);
      repository.Commit();
    }

    /** Three bounded deletions, then commit; a broken reference rolls all of them back. */
    method CleanupExpired(now: Instant, expiredRetention: nat, revokedRetention: nat, limit: nat)
      returns (r: Result<CleanupCounts, StoreError>)
      requires Clean()
      modifies repository
      ensures Clean()
      ensures Leaving(r, repository.committed) == Cleanup(old(repository.committed), now, expiredRetention, revokedRetention, limit)
      ensures r.Failure? ==> repository.committed == old(repository.committed)
      ensures r.Success? ==>
        Retained(old(repository.committed), repository.committed, now, expiredRetention, revokedRetention, limit, r.value)
    {
      ghost var before := repository.committed;
      r := DeleteInOrder(now, expiredRetention, revokedRetention, limit);
      if r.Success? {
        repository.Commit();
        CleanupKeepsRetention(before, now, expiredRetention, revokedRetention, limit);
      } else {
        repository.Rollback();
      }
    }

    method DeleteInOrder(now: Instant, expiredRetention: nat, revokedRetention: nat, limit: nat)
      returns (r: Result<CleanupCounts, StoreError>)
      modifies repository
      ensures repository.committed == old(repository.committed)
      ensures Leaving(r, repository.working) == Cleanup(old(repository.working), now, expiredRetention, revokedRetention, limit)
    {
      var tokens := repository.DeleteExpiredRefreshTokenRows(now, limit);
      if tokens.Failure? { return Failure(tokens.error); }
      r := DeleteSessionsInOrder(now - expiredRetention, now - revokedRetention, limit, tokens.value);
    }

    method DeleteSessionsInOrder(expiredBefore: Instant, revokedBefore: Instant, limit: nat, tokens: nat)
      returns (r: Result<CleanupCounts, StoreError>)
      modifies repository
      ensures repository.committed == old(repository.committed)
      ensures Leaving(r, repository.working) == CleanupSessions(old(repository.working), expiredBefore, revokedBefore, limit, tokens)
    {
      var expired := repository.DeleteExpiredSessionRows(expiredBefore, limit);
      if expired.Failure? { return Failure(expired.error); }
      var revoked := repository.DeleteRevokedSessionRows(revokedBefore, limit);
      if revoked.Failure? { return Failure(revoked.error); }
      r := Success(CleanupCounts(tokens, expired.value, revoked.value));
    }
  }
}
