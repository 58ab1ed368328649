/** A reachable cleanup that later requests can notice. */
module SessionCleanupShows {
  import opened Common
  import opened SessionRecords
  import opened SessionTables
  import opened SessionLifecycle
  import opened SessionRuns
  import opened SessionInvariants
  import opened SessionSafety
  import opened SessionCleanup

  const SHORT_TOKENS := Policy(10, 100)

  /** Log in at 0, rotate at 5, and let the first token expire. */
  const RUN: seq<Event> := [Login(0, 1, 2, 3, 0), Tick(5), Read(0, 0, 4, 1), Commit(0), Tick(6)]

  const SESSION := AuthSession(1, 0, 0, 0, 100, None)
  const FIRST := RefreshToken(2, 1, 3, 0, 0, 0, 10, None, None, None)
  const SECOND := RefreshToken(4, 1, 3, 1, 1, 5, 15, None, None, None)
  const SPENT := FIRST.(usedAt := Some(5), replacedBy := Some(4))

  lemma LoggedIn(w: World)
    requires w == Start(0)
    ensures Enabled(w, RUN[0])
    ensures var next := Step(w, SHORT_TOKENS, false, RUN[0]).0;
      && next.db == Tables(map[1 := SESSION], map[2 := FIRST]) && next.clock == 0 && next.pending == map[]
      && next.history.ids == {1, 2} && next.history.digests == {0}
  {
    StartKeepsInv(0);
    LoginAdds(w, SHORT_TOKENS, false, RUN[0]);
  }

  lemma ReadAtFive(w: World)
    requires w.db == Tables(map[1 := SESSION], map[2 := FIRST]) && w.clock == 5 && w.pending == map[]
    requires w.history.ids == {1, 2} && w.history.digests == {0}
    ensures Enabled(w, RUN[2])
    ensures var next := Step(w, SHORT_TOKENS, false, RUN[2]).0;
      next.db == w.db && next.clock == 5 && next.pending == map[0 := Prepared(FIRST, SESSION, SECOND, 5)]
  {
    ReadyIff(w.db, SHORT_TOKENS, 0, 5, 4, 1, 2);
  }

  lemma CommittedAtFive(w: World)
    requires Inv(w) && w.db == Tables(map[1 := SESSION], map[2 := FIRST]) && w.clock == 5
    requires w.pending == map[0 := Prepared(FIRST, SESSION, SECOND, 5)]
    ensures Enabled(w, RUN[3])
    ensures var next := Step(w, SHORT_TOKENS, false, RUN[3]).0;
      && next.db.sessions == map[1 := SESSION] && next.db.tokens == map[2 := SPENT, 4 := SECOND]
      && next.clock == 5 && next.pending == map[]
  {
    CommitRotates(w, 0);
  }

  lemma {:induction false} RunSnoc(start: World, policy: Policy, auditing: bool, es: seq<Event>, e: Event)
    requires Possible(start, policy, auditing, es) && Enabled(Run(start, policy, auditing, es), e)
    ensures Possible(start, policy, auditing, es + [e])
    ensures Run(start, policy, auditing, es + [e]) == Step(Run(start, policy, auditing, es), policy, auditing, e).0
    decreases |es|
  {
    if es == [] {
      assert es + [e] == [e] && [e][1..] == [];
    } else {
      assert (es + [e])[1..] == es[1..] + [e];
      RunSnoc(Step(start, policy, auditing, es[0]).0, policy, auditing, es[1..], e);
    }
  }

  /** The world after the first n events of the run. */
  ghost predicate Reaches(w: World, n: nat)
    requires n <= |RUN|
  {
    Possible(Start(0), SHORT_TOKENS, false, RUN[..n]) && w == Run(Start(0), SHORT_TOKENS, false, RUN[..n]) && Fit(w)
  }

  lemma Onward(w: World, n: nat) returns (next: World)
    requires n < |RUN| && Reaches(w, n) && Enabled(w, RUN[n])
    ensures next == Step(w, SHORT_TOKENS, false, RUN[n]).0 && Reaches(next, n + 1)
  {
    assert RUN[..n + 1] == RUN[..n] + [RUN[n]];
    RunSnoc(Start(0), SHORT_TOKENS, false, RUN[..n], RUN[n]);
    StepKeepsFit(w, SHORT_TOKENS, false, RUN[n]);
    next := Step(w, SHORT_TOKENS, false, RUN[n]).0;
  }

  lemma Waits(w: World, n: nat) returns (next: World)
    requires n < |RUN| && RUN[n].Tick? && Reaches(w, n)
    ensures next == w.(clock := w.clock + RUN[n].seconds) && Reaches(next, n + 1)
  {
    next := Onward(w, n);
  }

  lemma ReachesFive() returns (w: World)
    ensures Reaches(w, 2)
    ensures w.db == Tables(map[1 := SESSION], map[2 := FIRST]) && w.clock == 5 && w.pending == map[]
    ensures w.history.ids == {1, 2} && w.history.digests == {0}
  {
    StartKeepsInv(0);
    LoggedIn(Start(0));
    w := Onward(Start(0), 0);
    w := Waits(w, 1);
  }

  lemma ReachesEleven() returns (w: World)
    ensures Reaches(w, 5)
    ensures w.db.sessions == map[1 := SESSION] && w.db.tokens == map[2 := SPENT, 4 := SECOND] && w.clock == 11 && w.pending == map[]
  {
    w := ReachesFive();
    ReadAtFive(w);
    w := Onward(w, 2);
    CommittedAtFive(w);
    w := Onward(w, 3);
    w := Waits(w, 4);
  }

  lemma CleaningDeletesTheFirst(t: Tables)
    requires t.sessions == map[1 := SESSION] && t.tokens == map[2 := SPENT, 4 := SECOND]
    ensures ExpiredTokenBatch(t, 11, 1) == {2}
    ensures Cleanup(t, 11, 0, 0, 1).Success?
  {
    var keys := TokenExpiries(t);
    assert Before(keys, 11) == {2};
    FirstBatchIs(keys, {2}, 1);
    FirstBatchIs(SessionExpiries(t), {}, 1);
    var batch := ExpiredTokenBatch(t, 11, 1);
    assert batch == {2} by { assert |{2} - batch| == 0; }
    var t1 := DeleteTokens(t, {2});
    assert Before(SessionExpiries(t1), 11) == {};
    assert Before(RevocationTimes(t1), 11) == {};
    assert DeleteSessions(t1, {}) == t1;
  }

  lemma TakesLiveEvidence(w: World, e: Event)
    requires w.db.sessions == map[1 := SESSION] && w.db.tokens == map[2 := SPENT, 4 := SECOND] && w.clock == 11
    requires e == Clean(1, 0, 0)
    ensures Step(w, SHORT_TOKENS, false, e).1.Cleaned? && !LeavesNoTrace(w, e)
  {
    CleaningDeletesTheFirst(w.db);
    assert 2 in ExpiredTokenBatch(w.db, w.clock, 1) && Useful(w, 1);
  }

  /** With tokens shorter-lived than their sessions a reachable cleanup deletes the spent
      token of an active session, and a later replay tells that it ran. */
  lemma CleanupCanShow() returns (w: World, e: Event)
    ensures SHORT_TOKENS.Valid() && Possible(Start(0), SHORT_TOKENS, false, RUN) && w == Run(Start(0), SHORT_TOKENS, false, RUN)
    ensures e.Clean? && Step(w, SHORT_TOKENS, false, e).1.Cleaned?
    ensures ActiveIn(w.db.sessions, 1, w.clock) && !LeavesNoTrace(w, e)
    ensures !Indistinguishable(w, Step(w, SHORT_TOKENS, false, e).0, SHORT_TOKENS, false)
  {
    w := ReachesEleven();
    e := Clean(1, 0, 0);
    assert RUN[..5] == RUN;
    TakesLiveEvidence(w, e);
    CleanupInvisibleIff(w, SHORT_TOKENS, false, e);
  }
}
