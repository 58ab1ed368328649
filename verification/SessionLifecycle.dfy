/** What each session use case decides and commits, as functions of the committed
    tables (application/identity/session_lifecycle.py). A refresh is split where its
    transaction is: a read phase and the write phase that ends in the commit. */
module SessionLifecycle {
  import opened Common
  import opened SessionRecords
  import opened SessionTables

  datatype Policy = Policy(refreshLifetime: int, sessionLifetime: int) {
    predicate Valid() {
      0 < refreshLifetime <= sessionLifetime
    }
  }

  datatype UseCaseError =
    | InvalidRefreshToken | ExpiredRefreshToken | RefreshReplay
    | SessionNotFound | SessionOwnership | InvalidAccessToken
    | Store(error: StoreError) | Record(record: RecordError)

  function Min(a: int, b: int): int {
    if a <= b then a else b
  }

  // ---------- login ----------

  function StartSession(
    t: Tables, policy: Policy, user: Uuid, sid: Uuid, tokenId: Uuid, family: Uuid, digest: Digest, at: Instant)
    : Result<Tables, UseCaseError>
  {
    match CreateSession(sid, user, at, at + policy.sessionLifetime)
    case Failure(e) => Failure(Record(e))
    case Success(session) =>
      match IssueInitial(tokenId, sid, family, digest, at, at + policy.refreshLifetime)
      case Failure(e) => Failure(Record(e))
      case Success(token) =>
        if sid in t.sessions then Failure(Store(MissingSession))
        else if !Insertable(t.(sessions := t.sessions[sid := session]), token) then
          Failure(Store(if DigestTaken(t.tokens, digest) then DuplicateDigest else MissingSession))
        else Success(Tables(t.sessions[sid := session], t.tokens[tokenId := token]))
  }

  // ---------- refresh ----------

  /** What a refresh request carries from its reads to its write phase. */
  datatype Prepared = Prepared(current: RefreshToken, session: AuthSession, replacement: RefreshToken, rotatedAt: Instant)

  datatype ReadOutcome =
    | Refused(error: UseCaseError)
    | ReplayRevoked
    | Ready(prepared: Prepared)

  ghost function RefreshRead(t: Tables, policy: Policy, digest: Digest, at: Instant, newId: Uuid, newDigest: Digest)
    : (Tables, ReadOutcome)
  {
    match FindByDigest(t, digest)
    case None => (t, Refused(InvalidRefreshToken))
    case Some(current) =>
      if current.IsSpent() then
        match RevokeSession(t, current.session, at)
        case Failure(e) => (t, Refused(Store(e)))
        case Success(revoked) => (revoked, ReplayRevoked)
      else if current.revokedAt.Some? then (t, Refused(InvalidRefreshToken))
      else if current.IsExpired(at) then (t, Refused(ExpiredRefreshToken))
      else if !ActiveIn(t.sessions, current.session, at) then (t, Refused(InvalidRefreshToken))
      else
        var session := t.sessions[current.session];
        var expires := Min(at + policy.refreshLifetime, session.expiresAt);
        match current.Replacement(newId, newDigest, at, expires)
        case Failure(e) => (t, Refused(Record(e)))
        case Success(replacement) => (t, Ready(Prepared(current, session, replacement, at)))
  }

  function RefreshCommit(t: Tables, p: Prepared): Result<Tables, UseCaseError> {
    match Rotate(t, p.session.id, p.current.digest, p.current.generation, p.replacement, p.rotatedAt)
    case Failure(e) => Failure(Store(e))
    case Success(rotated) => Success(rotated)
  }

  // ---------- logout ----------

  function LogoutSession(t: Tables, user: Uuid, sid: Uuid, at: Instant): Result<Tables, UseCaseError> {
    if sid !in t.sessions then Failure(SessionNotFound)
    else if t.sessions[sid].user != user then Failure(SessionOwnership)
    else
      match RevokeSession(t, sid, at)
      case Failure(e) => Failure(Store(e))
      case Success(revoked) => Success(revoked)
  }

  /** Access verification after the codec has accepted the token's claims. */
  function VerifyAccess(t: Tables, user: Uuid, sid: Uuid, at: Instant): Result<Uuid, UseCaseError> {
    if !ActiveIn(t.sessions, sid, at) then Failure(InvalidAccessToken)
    else if t.sessions[sid].user != user then Failure(InvalidAccessToken)
    else Success(user)
  }
}
