/** Safety over whole runs, with cleanup running beside: single redemption of every
    secret, and revocation that no continuation undoes. */
module SessionSafety {
  import opened Common
  import opened SessionRecords
  import opened SessionTables
  import opened SessionLifecycle
  import opened SessionRuns
  import opened SessionInvariants

  lemma StartKeepsInv(at: Instant)
    ensures Inv(Start(at))
  {
  }

  // ---------- single redemption ----------

  /** The digests whose presentation ended in a committed rotation, in commit order. */
  ghost function Redemptions(w: World, policy: Policy, auditing: bool, es: seq<Event>): seq<Digest>
    requires Possible(w, policy, auditing, es)
    decreases |es|
  {
    if es == [] then []
    else
      var (next, o) := Step(w, policy, auditing, es[0]);
      (if o == Rotated then [w.pending[es[0].request].current.digest] else [])
      + Redemptions(next, policy, auditing, es[1..])
  }

  lemma StepRecordsRedemption(w: World, policy: Policy, auditing: bool, e: Event)
    requires Enabled(w, e)
    ensures var (next, o) := Step(w, policy, auditing, e);
      next.history.redeemed == w.history.redeemed + (if o == Rotated then [w.pending[e.request].current.digest] else [])
  {
  }

  lemma {:induction false} RedemptionsAreRecorded(w: World, policy: Policy, auditing: bool, es: seq<Event>)
    requires Possible(w, policy, auditing, es)
    ensures Run(w, policy, auditing, es).history.redeemed == w.history.redeemed + Redemptions(w, policy, auditing, es)
    decreases |es|
  {
    if es != [] {
      var (next, o) := Step(w, policy, auditing, es[0]);
      StepRecordsRedemption(w, policy, auditing, es[0]);
      RedemptionsAreRecorded(next, policy, auditing, es[1..]);
      var first := if o == Rotated then [w.pending[es[0].request].current.digest] else [];
      SeqAssociates(w.history.redeemed, first, Redemptions(next, policy, auditing, es[1..]));
    }
  }

  lemma SeqAssociates<T>(a: seq<T>, b: seq<T>, c: seq<T>)
    ensures (a + b) + c == a + (b + c)
  {
  }

  /** Each issued refresh token is redeemed at most once, however many stale requests race. */
  lemma RedeemedAtMostOnce(at: Instant, policy: Policy, auditing: bool, es: seq<Event>, digest: Digest)
    requires policy.Valid() && Possible(Start(at), policy, auditing, es)
    ensures Count(Redemptions(Start(at), policy, auditing, es), digest) <= 1
  {
    StartKeepsInv(at);
    RunKeepsInv(Start(at), policy, auditing, es);
    RedemptionsAreRecorded(Start(at), policy, auditing, es);
    var redeemed := Redemptions(Start(at), policy, auditing, es);
    assert Run(Start(at), policy, auditing, es).history.redeemed == redeemed;
    NoDuplicatesCount(redeemed, digest);
  }

  // ---------- revocation is absorbing ----------

  /** The session was issued once and is revoked or already cleaned away. */
  predicate Dead(w: World, sid: Uuid) {
    sid in w.history.ids && (sid in w.db.sessions ==> w.db.sessions[sid].revokedAt.Some?)
  }

  /** The session this step let through: a prepared or committed refresh, or a verified access token. */
  ghost function Served(w: World, policy: Policy, auditing: bool, e: Event): Option<Uuid>
    requires Enabled(w, e)
  {
    var (next, o) := Step(w, policy, auditing, e);
    if o == Prepares then Some(next.pending[e.request].session.id)
    else if o == Rotated then Some(w.pending[e.request].session.id)
    else if o == Verified then Some(e.sid)
    else None
  }

  ghost predicate EverServes(w: World, policy: Policy, auditing: bool, es: seq<Event>, sid: Uuid)
    requires Possible(w, policy, auditing, es)
    decreases |es|
  {
    es != [] &&
    (Served(w, policy, auditing, es[0]) == Some(sid)
     || EverServes(Step(w, policy, auditing, es[0]).0, policy, auditing, es[1..], sid))
  }

  lemma DeadNotServed(w: World, policy: Policy, auditing: bool, e: Event, sid: Uuid)
    requires Inv(w) && policy.Valid() && Enabled(w, e) && Dead(w, sid)
    ensures Served(w, policy, auditing, e) != Some(sid)
  {
    var (next, o) := Step(w, policy, auditing, e);
    if o == Prepares {
      var id :| id in w.db.tokens && w.db.tokens[id].digest == e.presented;
      ReadyIff(w.db, policy, e.presented, w.clock, e.newId, e.newDigest, id);
    } else if o == Rotated {
      CommitRotates(w, e.request);
      assert PreparedFits(w, w.pending[e.request]);
    }
  }

  lemma DeadStays(w: World, policy: Policy, auditing: bool, e: Event, sid: Uuid)
    requires Inv(w) && policy.Valid() && Enabled(w, e) && Dead(w, sid)
    ensures Dead(Step(w, policy, auditing, e).0, sid)
  {
    if e.Commit? { CommitRotates(w, e.request); }
  }

  /** After revocation nothing in any continuation is served from the session. */
  lemma {:induction false} RevocationIsAbsorbing(w: World, policy: Policy, auditing: bool, es: seq<Event>, sid: Uuid)
    requires Inv(w) && policy.Valid() && Possible(w, policy, auditing, es) && Dead(w, sid)
    ensures !EverServes(w, policy, auditing, es, sid)
    decreases |es|
  {
    if es != [] {
      DeadNotServed(w, policy, auditing, es[0], sid);
      DeadStays(w, policy, auditing, es[0], sid);
      StepKeepsInv(w, policy, auditing, es[0]);
      RevocationIsAbsorbing(Step(w, policy, auditing, es[0]).0, policy, auditing, es[1..], sid);
    }
  }

  lemma ReplayKills(w: World, policy: Policy, auditing: bool, e: Event) returns (id: Uuid)
    requires RowsKnown(w) && e.Read? && StepRead(w, policy, auditing, e).1 == Replayed
    ensures id in w.db.tokens && w.db.tokens[id].digest == e.presented
    ensures w.db.tokens[id].IsSpent() && Dead(StepRead(w, policy, auditing, e).0, w.db.tokens[id].session)
  {
    id :| id in w.db.tokens && w.db.tokens[id].digest == e.presented;
    FindByDigestIs(w.db, id);
    RevokeSessionKeepsRows(w, w.db.tokens[id].session);
  }

  /** A committed logout and a detected replay kill their session. */
  lemma LogoutAndReplayKill(w: World, policy: Policy, auditing: bool, e: Event)
    requires RowsKnown(w) && policy.Valid() && Enabled(w, e)
    ensures var (next, o) := Step(w, policy, auditing, e);
      && (o == LoggedOut ==> Dead(next, e.sid))
      && (o == Replayed ==>
            (exists id :: && id in w.db.tokens && w.db.tokens[id].digest == e.presented
                          && w.db.tokens[id].IsSpent() && Dead(next, w.db.tokens[id].session)))
  {
    var (next, o) := Step(w, policy, auditing, e);
    if o == LoggedOut {
      RevokeSessionKeepsRows(w, e.sid);
    } else if o == Replayed {
      var id := ReplayKills(w, policy, auditing, e);
    }
  }

  /** Logout-all kills every session the user had, reports exactly how many rows it
      changed, and leaves the user without an active session. */
  lemma LogoutAllKills(w: World, policy: Policy, auditing: bool, user: Uuid)
    requires Inv(w)
    ensures var (next, o) := Step(w, policy, auditing, LogoutAll(user));
      && o == LoggedOutAll(|set sid | sid in w.db.sessions && w.db.sessions[sid] != next.db.sessions[sid]|)
      && next.db.sessions.Keys == w.db.sessions.Keys
      && (forall sid :: sid in w.db.sessions && w.db.sessions[sid].user == user ==>
            Dead(next, sid) && !ActiveIn(next.db.sessions, sid, next.clock))
      && (forall sid :: sid in w.db.sessions && w.db.sessions[sid].user != user ==>
            next.db.sessions[sid] == w.db.sessions[sid])
      && (forall sid :: sid in w.db.sessions && next.db.sessions[sid] != w.db.sessions[sid] ==>
            next.db.sessions[sid] == w.db.sessions[sid].(updatedAt := w.clock, revokedAt := Some(w.clock)))
  {
    var (next, o) := Step(w, policy, auditing, LogoutAll(user));
    assert UnrevokedOf(w.db, user)
        == set sid | sid in w.db.sessions && w.db.sessions[sid] != next.db.sessions[sid];
  }
}
