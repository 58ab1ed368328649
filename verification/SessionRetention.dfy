/** What a cleanup deletes, read off the rows' own columns (security/repository.py,
    security/cleanup.py). */
module SessionRetention {
  import opened Common
  import opened SessionRecords
  import opened SessionTables

  // ---------- the three statements ----------

  /** Of the tokens that expired before `before`, the earliest, at most `limit`. */
  ghost predicate EarliestTokens(tokens: map<Uuid, RefreshToken>, gone: set<Uuid>, before: Instant, limit: nat) {
    && gone <= tokens.Keys && |gone| <= limit
    && (forall a :: a in gone ==> tokens[a].expiresAt < before)
    && (|gone| < limit ==> forall b :: b in tokens && b !in gone ==> tokens[b].expiresAt >= before)
    && (forall a, b :: a in gone && b in tokens && b !in gone && tokens[b].expiresAt < before ==>
          tokens[a].expiresAt < tokens[b].expiresAt || (tokens[a].expiresAt == tokens[b].expiresAt && a < b))
  }

  /** Of the sessions that expired before `before`, the earliest, at most `limit`. */
  ghost predicate EarliestExpired(sessions: map<Uuid, AuthSession>, gone: set<Uuid>, before: Instant, limit: nat) {
    && gone <= sessions.Keys && |gone| <= limit
    && (forall a :: a in gone ==> sessions[a].expiresAt < before)
    && (|gone| < limit ==> forall b :: b in sessions && b !in gone ==> sessions[b].expiresAt >= before)
    && (forall a, b :: a in gone && b in sessions && b !in gone && sessions[b].expiresAt < before ==>
          sessions[a].expiresAt < sessions[b].expiresAt || (sessions[a].expiresAt == sessions[b].expiresAt && a < b))
  }

  predicate RevokedBefore(session: AuthSession, before: Instant) {
    session.revokedAt.Some? && session.revokedAt.value < before
  }

  /** Of the sessions revoked before `before`, the earliest revoked, at most `limit`. */
  ghost predicate EarliestRevoked(sessions: map<Uuid, AuthSession>, gone: set<Uuid>, before: Instant, limit: nat) {
    && gone <= sessions.Keys && |gone| <= limit
    && (forall a :: a in gone ==> RevokedBefore(sessions[a], before))
    && (|gone| < limit ==> forall b :: b in sessions && b !in gone ==> !RevokedBefore(sessions[b], before))
    && (forall a, b :: a in gone && b in sessions && b !in gone && RevokedBefore(sessions[b], before) ==>
          sessions[a].revokedAt.value < sessions[b].revokedAt.value
          || (sessions[a].revokedAt.value == sessions[b].revokedAt.value && a < b))
  }

  lemma TokenBatchIs(t: Tables, before: Instant, limit: nat)
    ensures EarliestTokens(t.tokens, ExpiredTokenBatch(t, before, limit), before, limit)
  {
    var keys, gone := TokenExpiries(t), ExpiredTokenBatch(t, before, limit);
    FirstBatchIs(keys, Before(keys, before), limit);
    FullOrAll(Before(keys, before), gone, limit);
    forall a, b | a in gone && b in t.tokens && b !in gone && t.tokens[b].expiresAt < before ensures OrderedBefore(keys, a, b) {
      assert b in Before(keys, before) - gone;
    }
  }

  lemma ExpiredBatchIs(t: Tables, before: Instant, limit: nat)
    ensures EarliestExpired(t.sessions, ExpiredSessionBatch(t, before, limit), before, limit)
  {
    var keys, gone := SessionExpiries(t), ExpiredSessionBatch(t, before, limit);
    FirstBatchIs(keys, Before(keys, before), limit);
    FullOrAll(Before(keys, before), gone, limit);
    forall a, b | a in gone && b in t.sessions && b !in gone && t.sessions[b].expiresAt < before ensures OrderedBefore(keys, a, b) {
      assert b in Before(keys, before) - gone;
    }
  }

  lemma RevokedBatchIs(t: Tables, before: Instant, limit: nat)
    ensures EarliestRevoked(t.sessions, RevokedSessionBatch(t, before, limit), before, limit)
  {
    var keys, gone := RevocationTimes(t), RevokedSessionBatch(t, before, limit);
    FirstBatchIs(keys, Before(keys, before), limit);
    FullOrAll(Before(keys, before), gone, limit);
    forall a, b | a in gone && b in t.sessions && b !in gone && RevokedBefore(t.sessions[b], before) ensures OrderedBefore(keys, a, b) {
      assert b in Before(keys, before) - gone;
    }
  }

  /** A batch below its limit holds every candidate. */
  lemma FullOrAll(candidates: set<Uuid>, batch: set<Uuid>, limit: nat)
    requires batch <= candidates && |batch| == (if |candidates| <= limit then |candidates| else limit)
    ensures |batch| < limit ==> batch == candidates
  {
    assert candidates == batch + (candidates - batch);
  }

  // ---------- one cleanup ----------

  /** The rows left when these tokens and these sessions go, a session's tokens with it. */
  function Remaining(t: Tables, tokens: set<Uuid>, sessions: set<Uuid>): Tables {
    Tables(t.sessions - sessions,
           map id | id in t.tokens && id !in tokens && t.tokens[id].session !in sessions :: t.tokens[id])
  }

  /** Every token that names its successor still has it. */
  ghost predicate NoneDangling(t: Tables) {
    forall id :: id in t.tokens && t.tokens[id].replacedBy.Some? ==> t.tokens[id].replacedBy.value in t.tokens
  }

  /** What the three statements choose, each among the rows the earlier ones left. */
  ghost predicate Chosen(t: Tables, now: Instant, expiredRetention: nat, revokedRetention: nat, limit: nat,
                         tokens: set<Uuid>, expired: set<Uuid>, revoked: set<Uuid>)
  {
    && EarliestTokens(t.tokens, tokens, now, limit)
    && EarliestExpired(t.sessions, expired, now - expiredRetention, limit)
    && EarliestRevoked(t.sessions - expired, revoked, now - revokedRetention, limit)
  }

  lemma DeletingLeaves(t: Tables, tokens: set<Uuid>, sessions: set<Uuid>, more: set<Uuid>)
    ensures DeleteTokens(t, tokens) == Remaining(t, tokens, {})
    ensures DeleteSessions(Remaining(t, tokens, sessions), more) == Remaining(t, tokens, sessions + more)
  {
  }

  lemma RefusedIfDangling(after: Tables, count: nat)
    ensures Deleted(after, count) == if NoneDangling(after) then Success((after, count)) else Failure(DanglingReference)
  {
  }

  /** The second and third statement, after the first has left t1. */
  lemma SessionStatements(t1: Tables, expiredBefore: Instant, revokedBefore: Instant, limit: nat, tokens: nat)
    ensures var expired := ExpiredSessionBatch(t1, expiredBefore, limit);
      var t2 := DeleteSessions(t1, expired);
      var revoked := RevokedSessionBatch(t2, revokedBefore, limit);
      var t3 := DeleteSessions(t2, revoked);
      CleanupSessions(t1, expiredBefore, revokedBefore, limit, tokens)
        == if NoneDangling(t2) && NoneDangling(t3) then Success((t3, CleanupCounts(tokens, |expired|, |revoked|)))
           else Failure(DanglingReference)
  {
    var expired := ExpiredSessionBatch(t1, expiredBefore, limit);
    var t2 := DeleteSessions(t1, expired);
    var revoked := RevokedSessionBatch(t2, revokedBefore, limit);
    RefusedIfDangling(t2, |expired|);
    RefusedIfDangling(DeleteSessions(t2, revoked), |revoked|);
  }

  lemma ThreeStatements(t: Tables, now: Instant, expiredRetention: nat, revokedRetention: nat, limit: nat)
    ensures var tokens := ExpiredTokenBatch(t, now, limit);
      var t1 := DeleteTokens(t, tokens);
      Cleanup(t, now, expiredRetention, revokedRetention, limit)
        == if NoneDangling(t1) then CleanupSessions(t1, now - expiredRetention, now - revokedRetention, limit, |tokens|)
           else Failure(DanglingReference)
  {
    var tokens := ExpiredTokenBatch(t, now, limit);
    RefusedIfDangling(DeleteTokens(t, tokens), |tokens|);
  }

  lemma ChosenInTurn(t: Tables, between: map<Uuid, AuthSession>, now: Instant, expiredRetention: nat, revokedRetention: nat, limit: nat,
                     tokens: set<Uuid>, expired: set<Uuid>, revoked: set<Uuid>)
    requires EarliestTokens(t.tokens, tokens, now, limit)
    requires EarliestExpired(t.sessions, expired, now - expiredRetention, limit)
    requires between == t.sessions - expired && EarliestRevoked(between, revoked, now - revokedRetention, limit)
    ensures Chosen(t, now, expiredRetention, revokedRetention, limit, tokens, expired, revoked)
  {
  }

  lemma StatementsLeave(t: Tables, tokens: set<Uuid>, expired: set<Uuid>, revoked: set<Uuid>)
    ensures var t1 := DeleteTokens(t, tokens);
      var t2 := DeleteSessions(t1, expired);
      t1 == Remaining(t, tokens, {}) && t2 == Remaining(t, tokens, expired)
      && DeleteSessions(t2, revoked) == Remaining(t, tokens, expired + revoked)
  {
    DeletingLeaves(t, tokens, {}, expired);
    DeletingLeaves(t, tokens, expired, revoked);
    assert {} + expired == expired;
  }

  lemma CleanupOutcome(t: Tables, now: Instant, expiredRetention: nat, revokedRetention: nat, limit: nat,
                       tokens: set<Uuid>, t1: Tables, expired: set<Uuid>, t2: Tables, revoked: set<Uuid>)
    requires tokens == ExpiredTokenBatch(t, now, limit) && t1 == DeleteTokens(t, tokens)
    requires expired == ExpiredSessionBatch(t1, now - expiredRetention, limit) && t2 == DeleteSessions(t1, expired)
    requires revoked == RevokedSessionBatch(t2, now - revokedRetention, limit)
    ensures Cleanup(t, now, expiredRetention, revokedRetention, limit)
      == OutcomeOf(t1, t2, DeleteSessions(t2, revoked), CleanupCounts(|tokens|, |expired|, |revoked|))
  {
    ThreeStatements(t, now, expiredRetention, revokedRetention, limit);
    SessionStatements(t1, now - expiredRetention, now - revokedRetention, limit, |tokens|);
  }

  /** A cleanup takes the chosen rows and counts them, exactly when no statement leaves a
      token without the successor it names; otherwise it is refused. */
  lemma CleanupIs(t: Tables, now: Instant, expiredRetention: nat, revokedRetention: nat, limit: nat)
    returns (tokens: set<Uuid>, expired: set<Uuid>, revoked: set<Uuid>)
    ensures Chosen(t, now, expiredRetention, revokedRetention, limit, tokens, expired, revoked)
    ensures Cleanup(t, now, expiredRetention, revokedRetention, limit)
      == OutcomeOf(Remaining(t, tokens, {}), Remaining(t, tokens, expired), Remaining(t, tokens, expired + revoked),
                   CleanupCounts(|tokens|, |expired|, |revoked|))
  {
    var t1, t2;
    tokens, t1, expired, t2 := EarlyBatches(t, now, expiredRetention, limit);
    revoked := LastBatch(t2, now - revokedRetention, limit);
    ChosenInTurn(t, t2.sessions, now, expiredRetention, revokedRetention, limit, tokens, expired, revoked);
    CleanupOutcome(t, now, expiredRetention, revokedRetention, limit, tokens, t1, expired, t2, revoked);
    StatementsLeave(t, tokens, expired, revoked);
  }

  /** The first two statements' batches, and what they leave. */
  lemma EarlyBatches(t: Tables, now: Instant, expiredRetention: nat, limit: nat)
    returns (tokens: set<Uuid>, t1: Tables, expired: set<Uuid>, t2: Tables)
    ensures tokens == ExpiredTokenBatch(t, now, limit) && t1 == DeleteTokens(t, tokens)
    ensures expired == ExpiredSessionBatch(t1, now - expiredRetention, limit) && t2 == DeleteSessions(t1, expired)
    ensures EarliestTokens(t.tokens, tokens, now, limit)
    ensures EarliestExpired(t.sessions, expired, now - expiredRetention, limit) && t2.sessions == t.sessions - expired
  {
    tokens := ExpiredTokenBatch(t, now, limit);
    TokenBatchIs(t, now, limit);
    t1 := DeleteTokens(t, tokens);
    expired := ExpiredSessionBatch(t1, now - expiredRetention, limit);
    ExpiredBatchIs(t1, now - expiredRetention, limit);
    t2 := DeleteSessions(t1, expired);
  }

  lemma LastBatch(t2: Tables, before: Instant, limit: nat) returns (revoked: set<Uuid>)
    ensures revoked == RevokedSessionBatch(t2, before, limit) && EarliestRevoked(t2.sessions, revoked, before, limit)
  {
    revoked := RevokedSessionBatch(t2, before, limit);
    RevokedBatchIs(t2, before, limit);
  }

  /** What a transaction that leaves these tables, one after the other, ends with. */
  ghost function OutcomeOf(t1: Tables, t2: Tables, t3: Tables, counts: CleanupCounts): Result<(Tables, CleanupCounts), StoreError> {
    if NoneDangling(t1) && NoneDangling(t2) && NoneDangling(t3) then Success((t3, counts)) else Failure(DanglingReference)
  }

  // ---------- retention ----------

  /** Rows are kept or deleted as their own columns and the retentions say: nothing goes
      before its time, and a statement below its limit leaves nothing that is due. */
  ghost predicate Retained(t: Tables, after: Tables, now: Instant, expiredRetention: nat, revokedRetention: nat,
                           limit: nat, counts: CleanupCounts)
  {
    && (forall sid :: sid in after.sessions ==> sid in t.sessions && after.sessions[sid] == t.sessions[sid])
    && (forall id :: id in after.tokens ==> id in t.tokens && after.tokens[id] == t.tokens[id])
    && (forall sid :: sid in t.sessions && sid !in after.sessions ==>
          t.sessions[sid].expiresAt < now - expiredRetention || RevokedBefore(t.sessions[sid], now - revokedRetention))
    && (forall id :: id in t.tokens && id !in after.tokens ==>
          t.tokens[id].expiresAt < now || (t.tokens[id].session in t.sessions && t.tokens[id].session !in after.sessions))
    && (forall id :: id in after.tokens ==> t.tokens[id].session !in t.sessions || t.tokens[id].session in after.sessions)
    && (counts.tokens < limit ==> forall id :: id in after.tokens ==> t.tokens[id].expiresAt >= now)
    && (counts.expiredSessions < limit ==> forall sid :: sid in after.sessions ==> t.sessions[sid].expiresAt >= now - expiredRetention)
    && (counts.revokedSessions < limit ==> forall sid :: sid in after.sessions ==> !RevokedBefore(t.sessions[sid], now - revokedRetention))
    && counts.tokens <= limit && counts.expiredSessions <= limit && counts.revokedSessions <= limit
    && |t.sessions| == |after.sessions| + counts.expiredSessions + counts.revokedSessions
    && NoneDangling(after)
  }

  lemma SessionsCounted(t: Tables, tokens: set<Uuid>, expired: set<Uuid>, revoked: set<Uuid>)
    requires expired <= t.sessions.Keys && revoked <= t.sessions.Keys - expired
    ensures |t.sessions| == |Remaining(t, tokens, expired + revoked).sessions| + |expired| + |revoked|
  {
    var left := Remaining(t, tokens, expired + revoked).sessions;
    assert t.sessions.Keys == left.Keys + (expired + revoked) && left.Keys !! expired + revoked && expired !! revoked;
  }

  lemma RemainingIsRetained(t: Tables, now: Instant, expiredRetention: nat, revokedRetention: nat, limit: nat,
                            tokens: set<Uuid>, expired: set<Uuid>, revoked: set<Uuid>)
    requires Chosen(t, now, expiredRetention, revokedRetention, limit, tokens, expired, revoked)
    requires NoneDangling(Remaining(t, tokens, expired + revoked))
    ensures Retained(t, Remaining(t, tokens, expired + revoked), now, expiredRetention, revokedRetention, limit,
                     CleanupCounts(|tokens|, |expired|, |revoked|))
  {
    SessionsCounted(t, tokens, expired, revoked);
    var between := t.sessions - expired;
    forall sid | sid in t.sessions && sid !in expired ensures sid in between && between[sid] == t.sessions[sid] {}
  }

  lemma CleanupKeepsRetention(t: Tables, now: Instant, expiredRetention: nat, revokedRetention: nat, limit: nat)
    requires Cleanup(t, now, expiredRetention, revokedRetention, limit).Success?
    ensures var (after, counts) := Cleanup(t, now, expiredRetention, revokedRetention, limit).value;
      Retained(t, after, now, expiredRetention, revokedRetention, limit, counts)
  {
    var tokens, expired, revoked := CleanupIs(t, now, expiredRetention, revokedRetention, limit);
    RemainingIsRetained(t, now, expiredRetention, revokedRetention, limit, tokens, expired, revoked);
  }
}
