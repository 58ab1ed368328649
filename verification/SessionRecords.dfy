/** Sessions and refresh tokens as immutable records (domain/identity/sessions.py). */
module SessionRecords {
  import opened Common

  /** A refresh secret is identified with its SHA-256 digest, taken as injective. */
  type Digest = nat

  datatype RecordError = InvalidTimestamp | InvalidRefreshTokenState | InvalidSessionState

  datatype AuthSession = AuthSession(
    id: Uuid, user: Uuid, createdAt: Instant, updatedAt: Instant,
    expiresAt: Instant, revokedAt: Option<Instant>)
  {
    /** What construction accepts; reading a row back runs the same validation. */
    predicate Constructible() {
      && expiresAt > createdAt
      && updatedAt >= createdAt
      && (revokedAt.Some? ==> revokedAt.value >= createdAt)
    }

    predicate IsExpired(at: Instant) {
      at >= expiresAt
    }

    predicate IsActive(at: Instant) {
      revokedAt.None? && !IsExpired(at)
    }

    function Revoke(now: Instant): Result<AuthSession, RecordError> {
      if revokedAt.Some? then Success(this)
      else if now < createdAt then Failure(InvalidSessionState)
      else Success(this.(updatedAt := now, revokedAt := Some(now)))
    }
  }

  function CreateSession(id: Uuid, user: Uuid, now: Instant, expiresAt: Instant): Result<AuthSession, RecordError> {
    var session := AuthSession(id, user, now, now, expiresAt, None);
    if session.Constructible() then Success(session) else Failure(InvalidTimestamp)
  }

  datatype RefreshToken = RefreshToken(
    id: Uuid, session: Uuid, family: Uuid, digest: Digest, generation: nat,
    issuedAt: Instant, expiresAt: Instant, usedAt: Option<Instant>,
    revokedAt: Option<Instant>, replacedBy: Option<Uuid>)
  {
    predicate Constructible() {
      && expiresAt > issuedAt
      && (usedAt.Some? ==> usedAt.value >= issuedAt)
      && (revokedAt.Some? ==> revokedAt.value >= issuedAt)
    }

    predicate IsExpired(at: Instant) {
      at >= expiresAt
    }

    /** A spent token is the sign of a replay when it is presented again. */
    predicate IsSpent() {
      usedAt.Some? || replacedBy.Some?
    }

    predicate IsCurrent(at: Instant) {
      usedAt.None? && revokedAt.None? && replacedBy.None? && !IsExpired(at)
    }

    function Consume(replacementId: Uuid, now: Instant): Result<RefreshToken, RecordError> {
      if !IsCurrent(now) then Failure(InvalidRefreshTokenState)
      else
        var consumed := this.(usedAt := Some(now), replacedBy := Some(replacementId));
        if consumed.Constructible() then Success(consumed) else Failure(InvalidTimestamp)
    }

    function Replacement(newId: Uuid, newDigest: Digest, issued: Instant, expires: Instant)
      : Result<RefreshToken, RecordError>
    {
      if newDigest == digest then Failure(InvalidRefreshTokenState)
      else
        var next := RefreshToken(newId, session, family, newDigest, generation + 1, issued, expires, None, None, None);
        if next.Constructible() then Success(next) else Failure(InvalidTimestamp)
    }

    /** Same credential: everything but the lifecycle columns agrees. */
    predicate SameCredential(other: RefreshToken) {
      && id == other.id && session == other.session && family == other.family
      && digest == other.digest && generation == other.generation
      && issuedAt == other.issuedAt && expiresAt == other.expiresAt
    }
  }

  function IssueInitial(
    id: Uuid, session: Uuid, family: Uuid, digest: Digest, issuedAt: Instant, expiresAt: Instant)
    : Result<RefreshToken, RecordError>
  {
    var token := RefreshToken(id, session, family, digest, 0, issuedAt, expiresAt, None, None, None);
    if token.Constructible() then Success(token) else Failure(InvalidTimestamp)
  }

  /** Revocation ends activity for good, is idempotent and keeps the record valid. */
  lemma RevokeEndsSession(session: AuthSession, first: Instant, second: Instant, at: Instant)
    requires session.Constructible()
    requires session.Revoke(first).Success?
    ensures var revoked := session.Revoke(first).value;
      && !revoked.IsActive(at)
      && revoked.Revoke(second) == Success(revoked)
      && revoked.Constructible()
      && revoked.id == session.id && revoked.user == session.user
      && revoked.createdAt == session.createdAt && revoked.expiresAt == session.expiresAt
      && (session.revokedAt.Some? ==> revoked == session)
      && (session.revokedAt.None? ==> revoked.revokedAt == Some(first) && revoked.updatedAt == first)
  {
  }

  /** A token is consumed at most once, and consuming makes it spent. */
  lemma ConsumeOnce(token: RefreshToken, first: Uuid, second: Uuid, now: Instant, later: Instant)
    requires token.Consume(first, now).Success?
    ensures var spent := token.Consume(first, now).value;
      && spent.IsSpent() && spent.SameCredential(token)
      && spent.usedAt == Some(now) && spent.replacedBy == Some(first) && spent.revokedAt == None
      && spent.Consume(second, later).Failure?
  {
  }
}
