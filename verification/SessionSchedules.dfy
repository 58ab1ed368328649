/** Any number of cleanups: a run with them against the same run with all of them skipped
    (security/cleanup.py). */
module SessionSchedules {
  import opened Common
  import opened SessionRecords
  import opened SessionTables
  import opened SessionLifecycle
  import opened SessionRuns
  import opened SessionInvariants
  import opened SessionCleanup

  /** The run with its cleanups left out. */
  function Skipped(es: seq<Event>): (rest: seq<Event>)
    ensures WithoutCleanup(rest)
  {
    if es == [] then [] else if es[0].Clean? then Skipped(es[1..]) else [es[0]] + Skipped(es[1..])
  }

  /** What logins, refreshes and access verifications were answered, in order. */
  ghost function Grants(w: World, policy: Policy, auditing: bool, es: seq<Event>): seq<bool>
    requires Possible(w, policy, auditing, es)
    decreases |es|
  {
    if es == [] then []
    else
      var (next, o) := Step(w, policy, auditing, es[0]);
      (if es[0].Clean? then [] else [Granted(o)]) + Grants(next, policy, auditing, es[1..])
  }

  /** Every cleanup of the run leaves no trace where it happens. */
  ghost predicate TracelessRun(w: World, policy: Policy, auditing: bool, es: seq<Event>)
    requires Possible(w, policy, auditing, es)
    decreases |es|
  {
    es == []
    || (&& (es[0].Clean? && Step(w, policy, auditing, es[0]).1.Cleaned? ==> LeavesNoTrace(w, es[0]))
        && TracelessRun(Step(w, policy, auditing, es[0]).0, policy, auditing, es[1..]))
  }

  // ---------- agreement over several cleanups ----------

  lemma UsefulAlike(u: World, w: World, sid: Uuid)
    requires Agree(u, w)
    ensures Useful(u, sid) <==> Useful(w, sid)
  {
    forall r ensures Contends(u, r) <==> Contends(w, r) {}
    if Contended(u, sid) {
      var r :| Contends(u, r) && u.pending[r].session.id == sid;
      assert Contends(w, r);
    }
    if Contended(w, sid) {
      var r :| Contends(w, r) && w.pending[r].session.id == sid;
      assert Contends(u, r);
    }
  }

  lemma AgreementJoins(u: World, w: World, v: World)
    requires Agree(u, w) && Agree(w, v)
    ensures Agree(u, v)
  {
    forall sid ensures Useful(u, sid) <==> Useful(w, sid) { UsefulAlike(u, w, sid); }
    assert SessionsAgree(u, v);
    assert TokensAgree(u, v);
    forall r ensures Contends(u, r) <==> Contends(v, r) {
      assert Contends(u, r) <==> Contends(w, r);
    }
  }

  lemma AgreesWithItself(w: World)
    requires Fit(w)
    ensures Agree(w, w)
  {
    InvReadsAtHome(w);
    forall sid | Useful(w, sid) ensures sid in w.db.sessions {}
  }

  lemma EnabledAlike(w: World, v: World, e: Event)
    requires v.clock == w.clock && v.pending == w.pending && v.history == w.history
    ensures Enabled(w, e) <==> Enabled(v, e)
  {
  }

  /** A traceless cleanup leaves a world that still agrees with one that skipped it. */
  lemma CleanupAgrees(w: World, v: World, policy: Policy, auditing: bool, e: Event)
    requires Agree(w, v) && Fit(v) && policy.Valid() && e.Clean?
    requires Step(v, policy, auditing, e).1.Cleaned? ==> LeavesNoTrace(v, e)
    ensures Fit(Step(v, policy, auditing, e).0) && Agree(w, Step(v, policy, auditing, e).0)
  {
    StepKeepsFit(v, policy, auditing, e);
    if Step(v, policy, auditing, e).1.Cleaned? {
      TracelessAgrees(v, policy, auditing, e);
      AgreementJoins(w, v, Step(v, policy, auditing, e).0);
    }
  }

  lemma TracelessAgrees(v: World, policy: Policy, auditing: bool, e: Event)
    requires Fit(v) && policy.Valid() && e.Clean? && Step(v, policy, auditing, e).1.Cleaned? && LeavesNoTrace(v, e)
    ensures Agree(v, Step(v, policy, auditing, e).0)
  {
    var after := CleanedTables(v, policy, auditing, e);
    StepKeepsFit(v, policy, auditing, e);
    InvReadsAtHome(v);
    TraceIsPredictable(v, e, after);
    KeptTraceAgrees(v, after);
  }

  // ---------- whole schedules ----------

  /** The world with all cleanups skipped follows the one that ran them. */
  ghost predicate Tracks(w: World, v: World, policy: Policy, auditing: bool, es: seq<Event>)
    requires Possible(v, policy, auditing, es)
  {
    && Possible(w, policy, auditing, Skipped(es))
    && Grants(w, policy, auditing, Skipped(es)) == Grants(v, policy, auditing, es)
    && Fit(Run(w, policy, auditing, Skipped(es))) && Fit(Run(v, policy, auditing, es))
    && Agree(Run(w, policy, auditing, Skipped(es)), Run(v, policy, auditing, es))
  }

  lemma TracksPastCleanup(w: World, v: World, policy: Policy, auditing: bool, es: seq<Event>)
    requires es != [] && es[0].Clean? && Possible(v, policy, auditing, es)
    requires Tracks(w, Step(v, policy, auditing, es[0]).0, policy, auditing, es[1..])
    ensures Tracks(w, v, policy, auditing, es)
  {
    assert Grants(v, policy, auditing, es) == [] + Grants(Step(v, policy, auditing, es[0]).0, policy, auditing, es[1..]);
  }

  lemma TracksPastStep(w: World, v: World, policy: Policy, auditing: bool, es: seq<Event>)
    requires es != [] && !es[0].Clean? && Enabled(w, es[0]) && Possible(v, policy, auditing, es)
    requires Granted(Step(w, policy, auditing, es[0]).1) <==> Granted(Step(v, policy, auditing, es[0]).1)
    requires Tracks(Step(w, policy, auditing, es[0]).0, Step(v, policy, auditing, es[0]).0, policy, auditing, es[1..])
    ensures Tracks(w, v, policy, auditing, es)
  {
    assert Skipped(es)[1..] == Skipped(es[1..]);
  }

  lemma {:induction false} SkippedRunAgrees(w: World, v: World, policy: Policy, auditing: bool, es: seq<Event>)
    requires Fit(w) && Fit(v) && Agree(w, v) && policy.Valid()
    requires Possible(v, policy, auditing, es) && TracelessRun(v, policy, auditing, es)
    ensures Tracks(w, v, policy, auditing, es)
    decreases |es|
  {
    if es != [] {
      var e := es[0];
      if e.Clean? {
        CleanupAgrees(w, v, policy, auditing, e);
        SkippedRunAgrees(w, Step(v, policy, auditing, e).0, policy, auditing, es[1..]);
        TracksPastCleanup(w, v, policy, auditing, es);
      } else {
        BothStep(w, v, policy, auditing, e);
        SkippedRunAgrees(Step(w, policy, auditing, e).0, Step(v, policy, auditing, e).0, policy, auditing, es[1..]);
        TracksPastStep(w, v, policy, auditing, es);
      }
    }
  }

  lemma BothStep(w: World, v: World, policy: Policy, auditing: bool, e: Event)
    requires Fit(w) && Fit(v) && Agree(w, v) && policy.Valid() && Enabled(v, e) && !e.Clean?
    ensures Enabled(w, e) && Fit(Step(w, policy, auditing, e).0) && Fit(Step(v, policy, auditing, e).0)
    ensures Agree(Step(w, policy, auditing, e).0, Step(v, policy, auditing, e).0)
    ensures Granted(Step(w, policy, auditing, e).1) <==> Granted(Step(v, policy, auditing, e).1)
  {
    EnabledAlike(w, v, e);
    StepAgrees(w, v, policy, auditing, e);
    StepKeepsFit(w, policy, auditing, e);
    StepKeepsFit(v, policy, auditing, e);
  }

  /** A run with any number of cleanups, none of which leaves a trace where it happens,
      answers every login, refresh and verification as the run that skips them all. */
  lemma TracelessSchedulesAreInvisible(start: World, policy: Policy, auditing: bool, es: seq<Event>)
    requires Fit(start) && policy.Valid() && Possible(start, policy, auditing, es) && TracelessRun(start, policy, auditing, es)
    ensures Possible(start, policy, auditing, Skipped(es))
    ensures Grants(start, policy, auditing, Skipped(es)) == Grants(start, policy, auditing, es)
  {
    AgreesWithItself(start);
    SkippedRunAgrees(start, start, policy, auditing, es);
  }

  // ---------- the first cleanup that can be noticed ----------

  lemma {:induction false} PossibleAlike(w: World, v: World, policy: Policy, auditing: bool, es: seq<Event>)
    requires Fit(w) && Fit(v) && Agree(w, v) && policy.Valid() && Possible(v, policy, auditing, es) && WithoutCleanup(es)
    ensures Possible(w, policy, auditing, es)
    decreases |es|
  {
    if es != [] {
      assert !es[0].Clean?;
      BothStep(w, v, policy, auditing, es[0]);
      PossibleAlike(Step(w, policy, auditing, es[0]).0, Step(v, policy, auditing, es[0]).0, policy, auditing, es[1..]);
    }
  }

  lemma {:induction false} SameGrantsJoin(u: World, w: World, v: World, policy: Policy, auditing: bool, es: seq<Event>)
    requires Possible(u, policy, auditing, es) && Possible(w, policy, auditing, es)
    requires SameGrants(u, w, policy, auditing, es) && SameGrants(u, v, policy, auditing, es)
    ensures SameGrants(w, v, policy, auditing, es)
    decreases |es|
  {
    if es != [] {
      var e := es[0];
      SameGrantsJoin(Step(u, policy, auditing, e).0, Step(w, policy, auditing, e).0, Step(v, policy, auditing, e).0, policy, auditing, es[1..]);
    }
  }

  /** Agreeing worlds are told apart from a third by the same runs. */
  lemma IndistinguishableAlike(w: World, v: World, x: World, policy: Policy, auditing: bool)
    requires Fit(w) && Fit(v) && Agree(w, v) && policy.Valid() && Indistinguishable(w, x, policy, auditing)
    ensures Indistinguishable(v, x, policy, auditing)
  {
    forall es | WithoutCleanup(es) && Possible(v, policy, auditing, es) ensures SameGrants(v, x, policy, auditing, es) {
      PossibleAlike(w, v, policy, auditing, es);
      RunAgrees(w, v, policy, auditing, es);
      SameGrantsJoin(w, v, x, policy, auditing, es);
    }
  }

  lemma AgreeingIsIndistinguishable(w: World, v: World, policy: Policy, auditing: bool)
    requires Fit(w) && Fit(v) && Agree(w, v) && policy.Valid()
    ensures Indistinguishable(w, v, policy, auditing)
  {
    forall es | WithoutCleanup(es) && Possible(w, policy, auditing, es) ensures SameGrants(w, v, policy, auditing, es) {
      RunAgrees(w, v, policy, auditing, es);
    }
  }

  /** Exact condition, after any number of traceless cleanups: the next one can be told from
      never having cleaned up at all if and only if it leaves a trace. */
  lemma NextCleanupInvisibleIff(start: World, policy: Policy, auditing: bool, es: seq<Event>, e: Event)
    requires Fit(start) && policy.Valid() && Possible(start, policy, auditing, es) && TracelessRun(start, policy, auditing, es)
    requires e.Clean? && Step(Run(start, policy, auditing, es), policy, auditing, e).1.Cleaned?
    ensures Possible(start, policy, auditing, Skipped(es))
    ensures var v := Run(start, policy, auditing, es);
      Indistinguishable(Run(start, policy, auditing, Skipped(es)), Step(v, policy, auditing, e).0, policy, auditing)
      <==> LeavesNoTrace(v, e)
  {
    AgreesWithItself(start);
    SkippedRunAgrees(start, start, policy, auditing, es);
    var w, v := Run(start, policy, auditing, Skipped(es)), Run(start, policy, auditing, es);
    var x := Step(v, policy, auditing, e).0;
    if LeavesNoTrace(v, e) {
      CleanupAgrees(w, v, policy, auditing, e);
      AgreeingIsIndistinguishable(w, x, policy, auditing);
    }
    if Indistinguishable(w, x, policy, auditing) {
      IndistinguishableAlike(w, v, x, policy, auditing);
      CleanupInvisibleIff(v, policy, auditing, e);
    }
  }
}
