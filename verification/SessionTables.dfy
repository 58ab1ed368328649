/** The session and refresh-token tables, and what each repository statement does
    to them (infrastructure/identity/repository.py). */
module SessionTables {
  import opened Common
  import opened SessionRecords

  datatype Tables = Tables(sessions: map<Uuid, AuthSession>, tokens: map<Uuid, RefreshToken>)

  datatype StoreError = MissingSession | StaleRotation | DuplicateDigest | DanglingReference | InvalidRecord(record: RecordError)

  /** Primary keys, foreign keys and the digest constraint hold of every committed table. */
  ghost predicate Consistent(t: Tables) {
    && (forall sid :: sid in t.sessions ==> t.sessions[sid].id == sid && t.sessions[sid].Constructible())
    && (forall id :: id in t.tokens ==> t.tokens[id].id == id && t.tokens[id].Constructible() && t.tokens[id].session in t.sessions)
    && UniqueDigests(t.tokens)
  }

  ghost predicate UniqueDigests(tokens: map<Uuid, RefreshToken>) {
    forall a, b :: a in tokens && b in tokens && tokens[a].digest == tokens[b].digest ==> a == b
  }

  ghost predicate HasDigest(t: Tables, digest: Digest) {
    exists id :: id in t.tokens && t.tokens[id].digest == digest
  }

  ghost function FindByDigest(t: Tables, digest: Digest): (found: Option<RefreshToken>) {
    if HasDigest(t, digest) then
      var id :| id in t.tokens && t.tokens[id].digest == digest;
      Some(t.tokens[id])
    else None
  }

  lemma FindByDigestIs(t: Tables, id: Uuid)
    requires UniqueDigests(t.tokens) && id in t.tokens
    ensures FindByDigest(t, t.tokens[id].digest) == Some(t.tokens[id])
  {
    assert HasDigest(t, t.tokens[id].digest);
  }

  predicate ActiveIn(sessions: map<Uuid, AuthSession>, sid: Uuid, at: Instant) {
    sid in sessions && sessions[sid].IsActive(at)
  }

  // ---------- revocation ----------

  /** Unused, unrevoked tokens of the given sessions become revoked. */
  function RevokeTokens(tokens: map<Uuid, RefreshToken>, sids: set<Uuid>, at: Instant): map<Uuid, RefreshToken> {
    map id | id in tokens ::
      if tokens[id].session in sids && tokens[id].usedAt.None? && tokens[id].revokedAt.None?
      then tokens[id].(revokedAt := Some(at)) else tokens[id]
  }

  function RevokeSession(t: Tables, sid: Uuid, at: Instant): Result<Tables, StoreError> {
    if sid !in t.sessions then Failure(MissingSession)
    else
      match t.sessions[sid].Revoke(at)
      case Failure(e) => Failure(InvalidRecord(e))
      case Success(s) => Success(Tables(t.sessions[sid := s], RevokeTokens(t.tokens, {sid}, at)))
  }

  function UnrevokedOf(t: Tables, user: Uuid): set<Uuid> {
    set sid | sid in t.sessions && t.sessions[sid].user == user && t.sessions[sid].revokedAt.None?
  }

  function MarkRevoked(sessions: map<Uuid, AuthSession>, sids: set<Uuid>, at: Instant): map<Uuid, AuthSession> {
    map sid | sid in sessions ::
      if sid in sids then sessions[sid].(updatedAt := at, revokedAt := Some(at)) else sessions[sid]
  }

  function RevokeAll(t: Tables, user: Uuid, at: Instant): Tables {
    var sids := UnrevokedOf(t, user);
    Tables(MarkRevoked(t.sessions, sids, at), RevokeTokens(t.tokens, sids, at))
  }

  // ---------- rotation ----------

  predicate DigestTaken(tokens: map<Uuid, RefreshToken>, digest: Digest) {
    exists id :: id in tokens && tokens[id].digest == digest
  }

  predicate GenerationTaken(tokens: map<Uuid, RefreshToken>, session: Uuid, generation: nat) {
    exists id :: id in tokens && tokens[id].session == session && tokens[id].generation == generation
  }

  /** The constraints an inserted refresh-token row has to meet. */
  predicate Insertable(t: Tables, row: RefreshToken) {
    && row.id !in t.tokens
    && row.session in t.sessions
    && !DigestTaken(t.tokens, row.digest)
    && !GenerationTaken(t.tokens, row.session, row.generation)
  }

  /** The rows selected by the WHERE clause of the conditional rotation update. */
  function RotationRows(t: Tables, sid: Uuid, digest: Digest, generation: nat, at: Instant): set<Uuid> {
    set id | id in t.tokens
      && t.tokens[id].session == sid && t.tokens[id].digest == digest
      && t.tokens[id].generation == generation && t.tokens[id].usedAt.None?
      && t.tokens[id].revokedAt.None? && t.tokens[id].replacedBy.None? && t.tokens[id].expiresAt > at
      && t.tokens[id].session in t.sessions
      && t.sessions[t.tokens[id].session].revokedAt.None?
      && t.sessions[t.tokens[id].session].expiresAt > at
  }

  function MarkUsed(tokens: map<Uuid, RefreshToken>, ids: set<Uuid>, at: Instant, successor: Uuid): map<Uuid, RefreshToken> {
    map id | id in tokens :: if id in ids then tokens[id].(usedAt := Some(at), replacedBy := Some(successor)) else tokens[id]
  }

  /** Insert the replacement, then consume the expected row; a failure leaves nothing behind. */
  function Rotate(t: Tables, sid: Uuid, digest: Digest, generation: nat, replacement: RefreshToken, at: Instant)
    : Result<Tables, StoreError>
  {
    if !Insertable(t, replacement) then
      Failure(if DigestTaken(t.tokens, replacement.digest) then DuplicateDigest else StaleRotation)
    else
      var inserted := t.(tokens := t.tokens[replacement.id := replacement]);
      var rows := RotationRows(inserted, sid, digest, generation, at);
      if |rows| != 1 then Failure(StaleRotation)
      else Success(inserted.(tokens := MarkUsed(inserted.tokens, rows, at, replacement.id)))
  }

  lemma SingletonByElement<T>(s: set<T>, x: T)
    requires forall y :: y in s <==> y == x
    ensures s == {x} && |s| == 1
  {
    assert s == {x};
  }

  /** The update that follows the insert touches exactly the expected row, and only when
      the domain calls the token current and its session active. */
  lemma RotationRowsAreCurrent(t: Tables, id: Uuid, sid: Uuid, replacement: RefreshToken, at: Instant)
    requires Consistent(t) && id in t.tokens && Insertable(t, replacement)
    ensures var token := t.tokens[id];
      var inserted := t.(tokens := t.tokens[replacement.id := replacement]);
      var rows := RotationRows(inserted, sid, token.digest, token.generation, at);
      if token.session == sid && token.IsCurrent(at) && t.sessions[token.session].IsActive(at)
      then rows == {id} && |rows| == 1 else rows == {} && |rows| == 0
  {
    var token := t.tokens[id];
    var inserted := t.(tokens := t.tokens[replacement.id := replacement]);
    var rows := RotationRows(inserted, sid, token.digest, token.generation, at);
    assert id != replacement.id;
    assert inserted.tokens[id] == token;
    assert DigestTaken(t.tokens, token.digest);
    forall other | other in rows ensures other == id {
      if other != replacement.id { assert other in t.tokens; }
    }
    if token.session == sid && token.IsCurrent(at) && t.sessions[token.session].IsActive(at) {
      assert id in rows;
      SingletonByElement(rows, id);
    } else {
      assert id !in rows;
      assert rows == {};
    }
  }

  /** The committed SQL accepts exactly when the domain would, and writes exactly what
      the domain's consume returns next to the untouched replacement. */
  lemma RotateMatchesDomain(t: Tables, id: Uuid, sid: Uuid, replacement: RefreshToken, at: Instant)
    requires Consistent(t) && id in t.tokens
    ensures var token := t.tokens[id];
      var result := Rotate(t, sid, token.digest, token.generation, replacement, at);
      && (result.Success? <==>
            && Insertable(t, replacement) && token.session == sid
            && token.IsCurrent(at) && t.sessions[token.session].IsActive(at))
      && (result.Success? && at >= token.issuedAt ==>
            && token.Consume(replacement.id, at).Success?
            && result.value.sessions == t.sessions
            && result.value.tokens == t.tokens[replacement.id := replacement][id := token.Consume(replacement.id, at).value])
  {
    if Insertable(t, replacement) {
      RotationRowsAreCurrent(t, id, sid, replacement, at);
      var token := t.tokens[id];
      var result := Rotate(t, sid, token.digest, token.generation, replacement, at);
      if result.Success? && at >= token.issuedAt {
        var consumed := token.(usedAt := Some(at), replacedBy := Some(replacement.id));
        assert token.Consume(replacement.id, at) == Success(consumed);
        assert result.value.tokens == t.tokens[replacement.id := replacement][id := consumed];
      }
    }
  }

  /** A refused rotation is a duplicate digest or, for every other reason, a stale one. */
  lemma RotateRefusal(t: Tables, sid: Uuid, digest: Digest, generation: nat, replacement: RefreshToken, at: Instant)
    requires Rotate(t, sid, digest, generation, replacement, at).Failure?
    ensures var error := Rotate(t, sid, digest, generation, replacement, at).error;
      && (error == DuplicateDigest <==> exists id :: id in t.tokens && t.tokens[id].digest == replacement.digest)
      && (error == DuplicateDigest || error == StaleRotation)
  {
  }

  /** A rotation succeeds only over a row of that session, digest and generation. */
  lemma RotateNeedsTheRow(t: Tables, sid: Uuid, digest: Digest, generation: nat, replacement: RefreshToken, at: Instant) returns (id: Uuid)
    requires Rotate(t, sid, digest, generation, replacement, at).Success? && replacement.usedAt.None? && replacement.digest != digest
    ensures id in t.tokens && t.tokens[id].session == sid && t.tokens[id].digest == digest && t.tokens[id].generation == generation
    ensures var after := Rotate(t, sid, digest, generation, replacement, at).value;
      id in after.tokens && after.tokens[id] == t.tokens[id].(usedAt := Some(at), replacedBy := Some(replacement.id))
  {
    var inserted := t.(tokens := t.tokens[replacement.id := replacement]);
    var rows := RotationRows(inserted, sid, digest, generation, at);
    assert rows != {};
    id :| id in rows;
  }

  /** A rotation whose expected row is gone is refused. */
  lemma RotateNeedsRow(t: Tables, sid: Uuid, digest: Digest, generation: nat, replacement: RefreshToken, at: Instant)
    requires !DigestTaken(t.tokens, digest) && replacement.digest != digest
    ensures Rotate(t, sid, digest, generation, replacement, at).Failure?
  {
    if Insertable(t, replacement) {
      var inserted := t.(tokens := t.tokens[replacement.id := replacement]);
      var rows := RotationRows(inserted, sid, digest, generation, at);
      assert forall id :: id in t.tokens ==> t.tokens[id].digest != digest;
      assert rows == {};
    }
  }

  // ---------- bounded cleanup ----------

  /** Position in an ORDER BY instant, id. */
  predicate OrderedBefore(keys: map<Uuid, Instant>, a: Uuid, b: Uuid)
    requires a in keys && b in keys
  {
    keys[a] < keys[b] || (keys[a] == keys[b] && a < b)
  }

  ghost predicate IsEarliest(keys: map<Uuid, Instant>, ids: set<Uuid>, first: Uuid)
    requires ids <= keys.Keys
  {
    first in ids && forall x :: x in ids && x != first ==> OrderedBefore(keys, first, x)
  }

  lemma {:induction false} EarliestExists(keys: map<Uuid, Instant>, ids: set<Uuid>) returns (first: Uuid)
    requires ids != {} && ids <= keys.Keys
    ensures IsEarliest(keys, ids, first)
  {
    first :| first in ids;
    var rest := ids - {first};
    assert forall x :: x in ids && x != first ==> x in rest;
    if rest != {} {
      var b := EarliestExists(keys, rest);
      if OrderedBefore(keys, b, first) { first := b; }
    }
  }

  /** As many rows as the limit allows, and every row left out sorts after every row chosen. */
  ghost predicate IsFirstBatch(keys: map<Uuid, Instant>, candidates: set<Uuid>, limit: nat, batch: set<Uuid>)
    requires candidates <= keys.Keys
  {
    && batch <= candidates
    && |batch| == (if |candidates| <= limit then |candidates| else limit)
    && forall x, y :: x in batch && y in candidates - batch ==> OrderedBefore(keys, x, y)
  }

  lemma {:induction false} FirstBatchExists(keys: map<Uuid, Instant>, candidates: set<Uuid>, limit: nat)
    requires candidates <= keys.Keys
    ensures exists batch :: IsFirstBatch(keys, candidates, limit, batch)
    decreases limit
  {
    if limit == 0 || candidates == {} {
      assert IsFirstBatch(keys, candidates, limit, {});
    } else {
      var first := EarliestExists(keys, candidates);
      var rest := candidates - {first};
      FirstBatchExists(keys, rest, limit - 1);
      var others :| IsFirstBatch(keys, rest, limit - 1, others);
      assert |candidates| == |rest| + 1;
      assert |{first} + others| == 1 + |others|;
      assert candidates - ({first} + others) == rest - others;
      assert IsFirstBatch(keys, candidates, limit, {first} + others);
    }
  }

  lemma BothOrders(keys: map<Uuid, Instant>, x: Uuid, y: Uuid)
    requires x in keys && y in keys && OrderedBefore(keys, x, y)
    ensures !OrderedBefore(keys, y, x)
  {
  }

  lemma FirstBatchIsUnique(keys: map<Uuid, Instant>, candidates: set<Uuid>, limit: nat, a: set<Uuid>, b: set<Uuid>)
    requires candidates <= keys.Keys && IsFirstBatch(keys, candidates, limit, a) && IsFirstBatch(keys, candidates, limit, b)
    ensures a == b
  {
    if x, y :| x in a - b && y in b - a {
      BothOrders(keys, x, y);
    }
    assert a == (a * b) + (a - b) && b == (a * b) + (b - a);
    assert |a - b| == |b - a|;
    assert a - b == {} || b - a == {};
  }

  /** SELECT id ... ORDER BY key, id LIMIT n over the candidate rows. */
  ghost function FirstBatch(keys: map<Uuid, Instant>, candidates: set<Uuid>, limit: nat): set<Uuid>
    requires candidates <= keys.Keys
  {
    FirstBatchExists(keys, candidates, limit);
    var batch :| IsFirstBatch(keys, candidates, limit, batch);
    batch
  }

  lemma FirstBatchIs(keys: map<Uuid, Instant>, candidates: set<Uuid>, limit: nat)
    requires candidates <= keys.Keys
    ensures IsFirstBatch(keys, candidates, limit, FirstBatch(keys, candidates, limit))
  {
    FirstBatchExists(keys, candidates, limit);
  }

  function TokenExpiries(t: Tables): map<Uuid, Instant> {
    map id | id in t.tokens :: t.tokens[id].expiresAt
  }

  function SessionExpiries(t: Tables): map<Uuid, Instant> {
    map sid | sid in t.sessions :: t.sessions[sid].expiresAt
  }

  function RevocationTimes(t: Tables): map<Uuid, Instant> {
    map sid | sid in t.sessions && t.sessions[sid].revokedAt.Some? :: t.sessions[sid].revokedAt.value
  }

  function Before(keys: map<Uuid, Instant>, limit: Instant): set<Uuid> {
    set id | id in keys && keys[id] < limit
  }

  ghost function ExpiredTokenBatch(t: Tables, before: Instant, limit: nat): set<Uuid> {
    FirstBatch(TokenExpiries(t), Before(TokenExpiries(t), before), limit)
  }

  ghost function ExpiredSessionBatch(t: Tables, before: Instant, limit: nat): set<Uuid> {
    FirstBatch(SessionExpiries(t), Before(SessionExpiries(t), before), limit)
  }

  ghost function RevokedSessionBatch(t: Tables, before: Instant, limit: nat): set<Uuid> {
    FirstBatch(RevocationTimes(t), Before(RevocationTimes(t), before), limit)
  }

  function DeleteTokens(t: Tables, ids: set<Uuid>): Tables {
    t.(tokens := t.tokens - ids)
  }

  /** Deleting a session cascades to its tokens. */
  function DeleteSessions(t: Tables, sids: set<Uuid>): Tables {
    Tables(t.sessions - sids, map id | id in t.tokens && t.tokens[id].session !in sids :: t.tokens[id])
  }

  /** The self-reference replaced_by_token_id does not cascade. */
  predicate ReferencesHold(t: Tables) {
    forall id :: id in t.tokens && t.tokens[id].replacedBy.Some? ==> t.tokens[id].replacedBy.value in t.tokens
  }

  /** A delete statement takes effect unless it leaves a dangling reference. */
  function Deleted(after: Tables, count: nat): Result<(Tables, nat), StoreError> {
    if ReferencesHold(after) then Success((after, count)) else Failure(DanglingReference)
  }

  ghost function DeleteExpiredTokens(t: Tables, before: Instant, limit: nat): Result<(Tables, nat), StoreError> {
    var batch := ExpiredTokenBatch(t, before, limit);
    Deleted(DeleteTokens(t, batch), |batch|)
  }

  ghost function DeleteExpiredSessions(t: Tables, before: Instant, limit: nat): Result<(Tables, nat), StoreError> {
    var batch := ExpiredSessionBatch(t, before, limit);
    Deleted(DeleteSessions(t, batch), |batch|)
  }

  ghost function DeleteRevokedSessions(t: Tables, before: Instant, limit: nat): Result<(Tables, nat), StoreError> {
    var batch := RevokedSessionBatch(t, before, limit);
    Deleted(DeleteSessions(t, batch), |batch|)
  }

  datatype CleanupCounts = CleanupCounts(tokens: nat, expiredSessions: nat, revokedSessions: nat)

  /** One cleanup transaction; a violated foreign key rolls all of it back. */
  ghost function Cleanup(t: Tables, now: Instant, expiredRetention: nat, revokedRetention: nat, limit: nat)
    : Result<(Tables, CleanupCounts), StoreError>
  {
    match DeleteExpiredTokens(t, now, limit)
    case Failure(e) => Failure(e)
    case Success((t1, tokens)) => CleanupSessions(t1, now - expiredRetention, now - revokedRetention, limit, tokens)
  }

  ghost function CleanupSessions(t: Tables, expiredBefore: Instant, revokedBefore: Instant, limit: nat, tokens: nat)
    : Result<(Tables, CleanupCounts), StoreError>
  {
    match DeleteExpiredSessions(t, expiredBefore, limit)
    case Failure(e) => Failure(e)
    case Success((t2, expired)) => CleanupRevoked(t2, revokedBefore, limit, tokens, expired)
  }

  ghost function CleanupRevoked(t: Tables, revokedBefore: Instant, limit: nat, tokens: nat, expired: nat)
    : Result<(Tables, CleanupCounts), StoreError>
  {
    match DeleteRevokedSessions(t, revokedBefore, limit)
    case Failure(e) => Failure(e)
    case Success((t3, revoked)) => Success((t3, CleanupCounts(tokens, expired, revoked)))
  }

  /** The tables a statement leaves behind, next to what it reports. */
  function Leaving<T>(reported: Result<T, StoreError>, after: Tables): Result<(Tables, T), StoreError> {
    match reported
    case Failure(e) => Failure(e)
    case Success(value) => Success((after, value))
  }
}
