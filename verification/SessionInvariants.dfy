/** Every step, cleanup included, keeps the tables, the prepared requests and the
    redemption history consistent. */
module SessionInvariants {
  import opened Common
  import opened SessionRecords
  import opened SessionTables
  import opened SessionLifecycle
  import opened SessionRuns

  /** The rows of `after` are rows of `before` with at most lifecycle columns changed. */
  ghost predicate OnlyLifecycleChanged(before: Tables, after: Tables) {
    && after.sessions.Keys <= before.sessions.Keys
    && after.tokens.Keys <= before.tokens.Keys
    && (forall sid :: sid in after.sessions ==>
          var a, b := after.sessions[sid], before.sessions[sid];
          a.id == b.id && a.user == b.user && a.createdAt == b.createdAt && a.expiresAt == b.expiresAt && a.Constructible())
    && (forall id :: id in after.tokens ==>
          after.tokens[id].SameCredential(before.tokens[id]) && after.tokens[id].Constructible()
          && after.tokens[id].usedAt == before.tokens[id].usedAt && after.tokens[id].replacedBy == before.tokens[id].replacedBy
          && after.tokens[id].session in after.sessions)
  }

  lemma RevokeSessionKeepsRows(w: World, sid: Uuid)
    requires RowsKnown(w) && sid in w.db.sessions
    ensures var r := RevokeSession(w.db, sid, w.clock);
      r.Success? && OnlyLifecycleChanged(w.db, r.value) && !ActiveIn(r.value.sessions, sid, w.clock)
      && r.value.sessions[sid].revokedAt.Some?
  {
  }

  lemma RevokeAllKeepsRows(w: World, user: Uuid)
    requires RowsKnown(w)
    ensures OnlyLifecycleChanged(w.db, RevokeAll(w.db, user, w.clock))
  {
  }

  lemma CleanupKeepsRows(t: Tables, now: Instant, expiredRetention: nat, revokedRetention: nat, limit: nat)
    requires Consistent(t)
    requires Cleanup(t, now, expiredRetention, revokedRetention, limit).Success?
    ensures OnlyLifecycleChanged(t, Cleanup(t, now, expiredRetention, revokedRetention, limit).value.0)
  {
  }

  /** Steps that only revoke or delete rows keep the invariant. */
  lemma LifecycleKeepsInv(w: World, next: World)
    requires Inv(w) && OnlyLifecycleChanged(w.db, next.db)
    requires next.clock == w.clock && next.pending == w.pending && next.history == w.history
    ensures Inv(next)
  {
    assert RowsKnown(next);
    forall r | r in next.pending ensures PreparedFits(next, next.pending[r]) {
      assert PreparedFits(w, w.pending[r]);
    }
  }

  /** A login with fresh identifiers always succeeds, and adds one session with one token. */
  lemma LoginAdds(w: World, policy: Policy, auditing: bool, e: Event)
    requires RowsKnown(w) && policy.Valid() && e.Login? && Enabled(w, e)
    ensures var (next, o) := StepLogin(w, policy, auditing, e);
      var session := AuthSession(e.sid, e.user, w.clock, w.clock, w.clock + policy.sessionLifetime, None);
      var token := RefreshToken(e.tokenId, e.sid, e.family, e.digest, 0, w.clock, w.clock + policy.refreshLifetime, None, None, None);
      && o == LoggedIn
      && next.db == Tables(w.db.sessions[e.sid := session], w.db.tokens[e.tokenId := token])
      && next.history.lineage == w.history.lineage[e.sid := [e.tokenId]]
      && next.pending == w.pending && next.clock == w.clock
  {
  }

  lemma LoginKeepsInv(w: World, policy: Policy, auditing: bool, e: Event)
    requires Inv(w) && policy.Valid() && e.Login? && Enabled(w, e)
    ensures Inv(StepLogin(w, policy, auditing, e).0)
    ensures StepLogin(w, policy, auditing, e).1 == LoggedIn
  {
    var (next, o) := StepLogin(w, policy, auditing, e);
    assert RowsKnown(next);
    forall r | r in next.pending ensures PreparedFits(next, next.pending[r]) {
      assert PreparedFits(w, w.pending[r]);
    }
  }

  /** A read phase prepares a rotation exactly for a current token of an active session. */
  lemma ReadyIff(t: Tables, policy: Policy, digest: Digest, at: Instant, newId: Uuid, newDigest: Digest, id: Uuid)
    requires Consistent(t) && id in t.tokens && t.tokens[id].digest == digest
    requires policy.Valid() && newDigest != digest
    ensures var (next, o) := RefreshRead(t, policy, digest, at, newId, newDigest);
      var current := t.tokens[id];
      && (o.Ready? <==> current.IsCurrent(at) && ActiveIn(t.sessions, current.session, at))
      && (o.Ready? ==>
            && next == t
            && o.prepared == Prepared(current, t.sessions[current.session],
                 RefreshToken(newId, current.session, current.family, newDigest, current.generation + 1, at,
                   Min(at + policy.refreshLifetime, t.sessions[current.session].expiresAt), None, None, None), at))
      && (o.ReplayRevoked? ==> current.IsSpent())
      && (o.Refused? ==> !current.IsSpent() || RevokeSession(t, current.session, at).Failure?)
  {
    FindByDigestIs(t, id);
  }

  lemma AddingPrepared(w: World, next: World, request: nat, p: Prepared)
    requires Inv(w) && request !in w.pending
    requires next == w.(pending := w.pending[request := p],
      history := w.history.(ids := w.history.ids + {p.replacement.id}, digests := w.history.digests + {p.replacement.digest}))
    requires p.replacement.id !in w.history.ids && p.replacement.digest !in w.history.digests
    requires p.current.id in w.db.tokens && p.current == w.db.tokens[p.current.id]
    requires PreparedFits(next, p)
    ensures Inv(next)
  {
    assert RowsKnown(next);
    forall r | r in w.pending ensures PreparedFits(next, w.pending[r]) && Apart(p, w.pending[r], false) && Apart(w.pending[r], p, false) {
      assert PreparedFits(w, w.pending[r]);
    }
    assert EachFits(next);
    assert AllApart(next.pending);
    assert RedeemedAreGone(next);
  }

  lemma PreparingKeepsInv(w: World, policy: Policy, auditing: bool, e: Event)
    requires Inv(w) && policy.Valid() && e.Read? && Enabled(w, e)
    requires StepRead(w, policy, auditing, e).1 == Prepares
    ensures Inv(StepRead(w, policy, auditing, e).0)
  {
    var (next, o) := StepRead(w, policy, auditing, e);
    var id :| id in w.db.tokens && w.db.tokens[id].digest == e.presented;
    ReadyIff(w.db, policy, e.presented, w.clock, e.newId, e.newDigest, id);
    var p := next.pending[e.request];
    assert PreparedFits(next, p);
    AddingPrepared(w, next, e.request, p);
  }

  /** A detected replay revokes one session and writes nothing else. */
  lemma ReplayKeepsRows(w: World, policy: Policy, auditing: bool, e: Event)
    requires RowsKnown(w) && e.Read? && StepRead(w, policy, auditing, e).1 == Replayed
    ensures var next := StepRead(w, policy, auditing, e).0;
      && OnlyLifecycleChanged(w.db, next.db)
      && next.clock == w.clock && next.pending == w.pending && next.history == w.history
  {
    var id :| id in w.db.tokens && w.db.tokens[id].digest == e.presented;
    FindByDigestIs(w.db, id);
    RevokeSessionKeepsRows(w, w.db.tokens[id].session);
  }

  lemma ReadKeepsInv(w: World, policy: Policy, auditing: bool, e: Event)
    requires Inv(w) && policy.Valid() && e.Read? && Enabled(w, e)
    ensures Inv(StepRead(w, policy, auditing, e).0)
  {
    var (next, o) := StepRead(w, policy, auditing, e);
    if o == Prepares {
      PreparingKeepsInv(w, policy, auditing, e);
    } else if o == Replayed {
      ReplayKeepsRows(w, policy, auditing, e);
      LifecycleKeepsInv(w, next);
    }
  }

  /** A commit either changes no row, or rotates exactly the row the request read. */
  lemma CommitRotates(w: World, request: nat)
    requires RowsKnown(w) && PendingFits(w) && request in w.pending
    ensures var p := w.pending[request];
      var r := RefreshCommit(w.db, p);
      var id := p.current.id;
      && (r.Success? <==>
            && id in w.db.tokens && w.db.tokens[id].IsCurrent(p.rotatedAt)
            && w.db.sessions[p.session.id].IsActive(p.rotatedAt)
            && Insertable(w.db, p.replacement))
      && (r.Success? ==>
            r.value == Tables(w.db.sessions,
              w.db.tokens[p.replacement.id := p.replacement]
                         [id := w.db.tokens[id].(usedAt := Some(p.rotatedAt), replacedBy := Some(p.replacement.id))]))
  {
    var p := w.pending[request];
    assert PreparedFits(w, p);
    if p.current.id in w.db.tokens {
      RotateMatchesDomain(w.db, p.current.id, p.session.id, p.replacement, p.rotatedAt);
    } else {
      RotateNeedsRow(w.db, p.session.id, p.current.digest, p.current.generation, p.replacement, p.rotatedAt);
    }
  }

  lemma CommitKeepsPending(w: World, auditing: bool, request: nat)
    requires Inv(w) && request in w.pending
    ensures PendingFits(StepCommit(w, auditing, request).0)
  {
    var (next, o) := StepCommit(w, auditing, request);
    var p := w.pending[request];
    CommitRotates(w, request);
    assert PreparedFits(w, p);
    forall r | r in next.pending ensures PreparedFits(next, next.pending[r]) {
      assert PreparedFits(w, w.pending[r]);
      assert Apart(p, w.pending[r], false);
    }
  }

  lemma CommitKeepsInv(w: World, auditing: bool, request: nat)
    requires Inv(w) && request in w.pending
    ensures Inv(StepCommit(w, auditing, request).0)
    ensures StepCommit(w, auditing, request).1 == Rotated ==> w.pending[request].current.digest !in w.history.redeemed
  {
    CommitKeepsPending(w, auditing, request);
    if StepCommit(w, auditing, request).1 == Rotated {
      CommitKeepsRows(w, auditing, request);
      CommitKeepsRedeemed(w, auditing, request);
    }
  }

  lemma CommitKeepsRows(w: World, auditing: bool, request: nat)
    requires Inv(w) && request in w.pending
    requires StepCommit(w, auditing, request).1 == Rotated
    ensures RowsKnown(StepCommit(w, auditing, request).0)
  {
    var p := w.pending[request];
    CommitRotates(w, request);
    assert PreparedFits(w, p);
  }

  lemma CommitKeepsRedeemed(w: World, auditing: bool, request: nat)
    requires Inv(w) && request in w.pending
    requires StepCommit(w, auditing, request).1 == Rotated
    ensures RedeemedAreGone(StepCommit(w, auditing, request).0)
    ensures w.pending[request].current.digest !in w.history.redeemed
  {
    var p := w.pending[request];
    CommitRotates(w, request);
    assert PreparedFits(w, p);
    var (next, o) := StepCommit(w, auditing, request);
    assert w.db.tokens[p.current.id].digest == p.current.digest;
    forall r | r in next.pending ensures next.pending[r].replacement.digest !in next.history.redeemed {
      assert PreparedFits(w, w.pending[r]);
      assert DigestTaken(w.db.tokens, p.current.digest);
    }
  }

  /** Main invariant: no step, in any interleaving, breaks it. */
  lemma StepKeepsInv(w: World, policy: Policy, auditing: bool, e: Event)
    requires Inv(w) && policy.Valid() && Enabled(w, e)
    ensures Inv(Step(w, policy, auditing, e).0)
  {
    var (next, o) := Step(w, policy, auditing, e);
    match e
    case Tick(_) =>
      forall r | r in next.pending ensures PreparedFits(next, next.pending[r]) {
        assert PreparedFits(w, w.pending[r]);
      }
    case Login(_, _, _, _, _) => LoginKeepsInv(w, policy, auditing, e);
    case Read(_, _, _, _) => ReadKeepsInv(w, policy, auditing, e);
    case Commit(request) => CommitKeepsInv(w, auditing, request);
    case Logout(user, sid) =>
      if o == LoggedOut {
        RevokeSessionKeepsRows(w, sid);
        LifecycleKeepsInv(w, next);
      }
    case LogoutAll(user) =>
      RevokeAllKeepsRows(w, user);
      LifecycleKeepsInv(w, next);
    case Verify(_, _) =>
    case Clean(limit, expired, revoked) =>
      if o.Cleaned? {
        CleanupKeepsRows(w.db, w.clock, expired, revoked, limit);
        LifecycleKeepsInv(w, next);
      }
  }

  lemma {:induction false} RunKeepsInv(w: World, policy: Policy, auditing: bool, es: seq<Event>)
    requires Inv(w) && policy.Valid() && Possible(w, policy, auditing, es)
    ensures Inv(Run(w, policy, auditing, es))
    decreases |es|
  {
    if es != [] {
      StepKeepsInv(w, policy, auditing, es[0]);
      RunKeepsInv(Step(w, policy, auditing, es[0]).0, policy, auditing, es[1..]);
    }
  }
}
