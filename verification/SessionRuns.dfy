/** Runs of the session subsystem: any number of requests, each phase one atomic
    step against the shared tables, over a clock that never goes back. */
module SessionRuns {
  import opened Common
  import opened SessionRecords
  import opened SessionTables
  import opened SessionLifecycle

  datatype AuditEntry = LoginSucceeded(session: Uuid) | SessionCreated(session: Uuid)
    | SessionRefreshed(session: Uuid) | ReplayDetected(session: Uuid) | SessionRevoked(session: Uuid)
    | SessionRevokedAll(user: Uuid, count: nat)

  /** What has happened, kept beside the tables: identifiers and digests handed out,
      digests redeemed in order, and each session's tokens in order of issue. */
  datatype History = History(ids: set<Uuid>, digests: set<Digest>, redeemed: seq<Digest>, lineage: map<Uuid, seq<Uuid>>)

  datatype World = World(
    db: Tables, clock: Instant, pending: map<nat, Prepared>, audit: seq<AuditEntry>, history: History)

  datatype Event =
    | Tick(seconds: nat)
    | Login(user: Uuid, sid: Uuid, tokenId: Uuid, family: Uuid, digest: Digest)
    | Read(request: nat, presented: Digest, newId: Uuid, newDigest: Digest)
    | Commit(request: nat)
    | Logout(user: Uuid, sid: Uuid)
    | LogoutAll(user: Uuid)
    | Verify(user: Uuid, sid: Uuid)
    | Clean(limit: nat, expiredRetention: nat, revokedRetention: nat)

  datatype Outcome =
    | Ticked | LoggedIn | Prepares | Rotated | Replayed | LoggedOut | LoggedOutAll(count: nat)
    | Verified | Cleaned(counts: CleanupCounts) | Rejected(error: UseCaseError)

  const NO_HISTORY := History({}, {}, [], map[])
  const EMPTY_TABLES := Tables(map[], map[])

  function Start(at: Instant): World {
    World(EMPTY_TABLES, at, map[], [], NO_HISTORY)
  }

  /** Random identifiers and secrets are fresh; a write phase belongs to a request that read. */
  predicate Enabled(w: World, e: Event) {
    match e
    case Login(_, sid, tokenId, _, digest) =>
      sid !in w.history.ids && tokenId !in w.history.ids && sid != tokenId && digest !in w.history.digests
    case Read(request, presented, newId, newDigest) =>
      request !in w.pending && newId !in w.history.ids && newDigest !in w.history.digests && newDigest != presented
    case Commit(request) => request in w.pending
    case _ => true
  }

  function Log(audit: seq<AuditEntry>, entries: seq<AuditEntry>, auditing: bool): seq<AuditEntry> {
    if auditing then audit + entries else audit
  }

  ghost function StepLogin(w: World, policy: Policy, auditing: bool, e: Event): (World, Outcome)
    requires e.Login?
  {
    match StartSession(w.db, policy, e.user, e.sid, e.tokenId, e.family, e.digest, w.clock)
    case Failure(error) => (w, Rejected(error))
    case Success(db) =>
      var h := w.history;
      (w.(db := db, audit := Log(w.audit, [LoginSucceeded(e.sid), SessionCreated(e.sid)], auditing),
          history := h.(ids := h.ids + {e.sid, e.tokenId}, digests := h.digests + {e.digest},
                        lineage := h.lineage[e.sid := [e.tokenId]])),
       LoggedIn)
  }

  ghost function StepRead(w: World, policy: Policy, auditing: bool, e: Event): (World, Outcome)
    requires e.Read?
  {
    var (db, outcome) := RefreshRead(w.db, policy, e.presented, w.clock, e.newId, e.newDigest);
    match outcome
    case Refused(error) => (w, Rejected(error))
    case ReplayRevoked =>
      var sid := FindByDigest(w.db, e.presented).value.session;
      (w.(db := db, audit := Log(w.audit, [ReplayDetected(sid), SessionRevoked(sid)], auditing)), Replayed)
    case Ready(prepared) =>
      var h := w.history;
      (w.(pending := w.pending[e.request := prepared],
          history := h.(ids := h.ids + {e.newId}, digests := h.digests + {e.newDigest})),
       Prepares)
  }

  function Extend(lineage: map<Uuid, seq<Uuid>>, sid: Uuid, id: Uuid): map<Uuid, seq<Uuid>> {
    lineage[sid := (if sid in lineage then lineage[sid] else []) + [id]]
  }

  function StepCommit(w: World, auditing: bool, request: nat): (World, Outcome)
    requires request in w.pending
  {
    var p := w.pending[request];
    match RefreshCommit(w.db, p)
    case Failure(error) => (w.(pending := w.pending - {request}), Rejected(error))
    case Success(db) =>
      var h := w.history;
      (w.(db := db, pending := w.pending - {request},
          audit := Log(w.audit, [SessionRefreshed(p.session.id)], auditing),
          history := h.(redeemed := h.redeemed + [p.current.digest],
                        lineage := Extend(h.lineage, p.session.id, p.replacement.id))),
       Rotated)
  }

  function StepLogout(w: World, auditing: bool, user: Uuid, sid: Uuid): (World, Outcome) {
    match LogoutSession(w.db, user, sid, w.clock)
    case Failure(error) => (w, Rejected(error))
    case Success(db) => (w.(db := db, audit := Log(w.audit, [SessionRevoked(sid)], auditing)), LoggedOut)
  }

  function StepLogoutAll(w: World, auditing: bool, user: Uuid): (World, Outcome) {
    var count := |UnrevokedOf(w.db, user)|;
    (w.(db := RevokeAll(w.db, user, w.clock), audit := Log(w.audit, [SessionRevokedAll(user, count)], auditing)),
     LoggedOutAll(count))
  }

  ghost function StepClean(w: World, e: Event): (World, Outcome)
    requires e.Clean?
  {
    match Cleanup(w.db, w.clock, e.expiredRetention, e.revokedRetention, e.limit)
    case Failure(error) => (w, Rejected(Store(error)))
    case Success((db, counts)) => (w.(db := db), Cleaned(counts))
  }

  ghost function Step(w: World, policy: Policy, auditing: bool, e: Event): (World, Outcome)
    requires Enabled(w, e)
  {
    match e
    case Tick(seconds) => (w.(clock := w.clock + seconds), Ticked)
    case Login(_, _, _, _, _) => StepLogin(w, policy, auditing, e)
    case Read(_, _, _, _) => StepRead(w, policy, auditing, e)
    case Commit(request) => StepCommit(w, auditing, request)
    case Logout(user, sid) => StepLogout(w, auditing, user, sid)
    case LogoutAll(user) => StepLogoutAll(w, auditing, user)
    case Verify(user, sid) =>
      (match VerifyAccess(w.db, user, sid, w.clock)
       case Failure(error) => (w, Rejected(error))
       case Success(_) => (w, Verified))
    case Clean(_, _, _) => StepClean(w, e)
  }

  /** Every event of the run is enabled when its turn comes. */
  ghost predicate Possible(w: World, policy: Policy, auditing: bool, es: seq<Event>)
    decreases |es|
  {
    es == [] || (Enabled(w, es[0]) && Possible(Step(w, policy, auditing, es[0]).0, policy, auditing, es[1..]))
  }

  ghost function Run(w: World, policy: Policy, auditing: bool, es: seq<Event>): World
    requires Possible(w, policy, auditing, es)
    decreases |es|
  {
    if es == [] then w else Run(Step(w, policy, auditing, es[0]).0, policy, auditing, es[1..])
  }

  ghost function Outcomes(w: World, policy: Policy, auditing: bool, es: seq<Event>): (os: seq<Outcome>)
    requires Possible(w, policy, auditing, es)
    ensures |os| == |es|
    decreases |es|
  {
    if es == [] then [] else
      var (next, o) := Step(w, policy, auditing, es[0]);
      [o] + Outcomes(next, policy, auditing, es[1..])
  }

  predicate WithoutCleanup(es: seq<Event>) {
    forall i :: 0 <= i < |es| ==> !es[i].Clean?
  }

  // ---------- what every step keeps ----------

  ghost predicate RowsKnown(w: World) {
    && Consistent(w.db)
    && (forall sid :: sid in w.db.sessions ==> sid in w.history.ids && w.db.sessions[sid].createdAt <= w.clock)
    && (forall id :: id in w.db.tokens ==>
          id in w.history.ids && w.db.tokens[id].digest in w.history.digests && w.db.tokens[id].issuedAt <= w.clock
          && w.db.tokens[id].session in w.history.ids)
  }

  /** A prepared request stays consistent with the row it read, if that row still exists. */
  ghost predicate PreparedFits(w: World, p: Prepared) {
    && p.session.id == p.current.session
    && p.replacement.session == p.current.session && p.replacement.generation == p.current.generation + 1
    && p.replacement.family == p.current.family
    && p.replacement.issuedAt == p.rotatedAt && p.current.issuedAt <= p.rotatedAt <= w.clock
    && p.current.expiresAt > p.rotatedAt && p.session.expiresAt > p.rotatedAt
    && p.replacement.usedAt.None? && p.replacement.revokedAt.None? && p.replacement.replacedBy.None?
    && p.replacement.Constructible()
    && p.current.id in w.history.ids && p.current.digest in w.history.digests
    && p.session.id in w.history.ids
    && p.replacement.digest != p.current.digest
    && (forall id :: id in w.db.tokens && (id == p.current.id || w.db.tokens[id].digest == p.current.digest) ==>
          id == p.current.id && w.db.tokens[id].SameCredential(p.current))
    && (p.session.id in w.db.sessions ==>
          w.db.sessions[p.session.id].expiresAt == p.session.expiresAt && w.db.sessions[p.session.id].user == p.session.user)
    && p.replacement.id in w.history.ids && p.replacement.digest in w.history.digests
    && p.replacement.id !in w.db.tokens && !DigestTaken(w.db.tokens, p.replacement.digest)
  }

  /** What request p would install is neither read nor installed by request q. */
  predicate Apart(p: Prepared, q: Prepared, same: bool) {
    && p.replacement.id != q.current.id
    && p.replacement.digest != q.current.digest
    && (same || (p.replacement.id != q.replacement.id && p.replacement.digest != q.replacement.digest))
  }

  ghost predicate AllApart(pending: map<nat, Prepared>) {
    forall r, q :: r in pending && q in pending ==> Apart(pending[r], pending[q], r == q)
  }

  ghost predicate EachFits(w: World) {
    forall r :: r in w.pending ==> PreparedFits(w, w.pending[r])
  }

  ghost predicate PendingFits(w: World) {
    EachFits(w) && AllApart(w.pending)
  }

  /** No redeemed digest can be redeemed again: it has no unused row and no request will install it. */
  ghost predicate RedeemedAreGone(w: World) {
    && NoDuplicates(w.history.redeemed)
    && (forall i :: 0 <= i < |w.history.redeemed| ==> w.history.redeemed[i] in w.history.digests)
    && (forall id :: id in w.db.tokens && w.db.tokens[id].digest in w.history.redeemed ==> w.db.tokens[id].usedAt.Some?)
    && (forall r :: r in w.pending ==> w.pending[r].replacement.digest !in w.history.redeemed)
  }

  ghost predicate Inv(w: World) {
    RowsKnown(w) && PendingFits(w) && RedeemedAreGone(w)
  }

  /** Expiries follow the policy exactly, so they never outlive the session. */
  ghost predicate ExpiriesExact(w: World, policy: Policy) {
    && (forall sid :: sid in w.db.sessions ==>
          w.db.sessions[sid].expiresAt == w.db.sessions[sid].createdAt + policy.sessionLifetime)
    && (forall id :: id in w.db.tokens && w.db.tokens[id].session in w.db.sessions ==>
          ExpiryExact(w.db.tokens[id], w.db.sessions[w.db.tokens[id].session], policy))
    && (forall r :: r in w.pending ==>
          && ExpiryExact(w.pending[r].replacement, w.pending[r].session, policy)
          && w.pending[r].session.createdAt <= w.pending[r].rotatedAt
          && w.pending[r].session.expiresAt == w.pending[r].session.createdAt + policy.sessionLifetime
          && (w.pending[r].session.id in w.db.sessions ==>
                w.db.sessions[w.pending[r].session.id].createdAt == w.pending[r].session.createdAt))
  }

  predicate ExpiryExact(token: RefreshToken, session: AuthSession, policy: Policy) {
    && session.createdAt <= token.issuedAt
    && token.expiresAt == Min(token.issuedAt + policy.refreshLifetime, session.expiresAt)
  }
}
