/** The audit trail of a run (application/identity/session_lifecycle.py). */
module SessionAudit {
  import opened Common
  import opened SessionRecords
  import opened SessionTables
  import opened SessionLifecycle
  import opened SessionRuns
  import opened SessionInvariants

  /** A row carrying the digest, in this session. */
  predicate Presents(t: Tables, digest: Digest, sid: Uuid) {
    exists id :: id in t.tokens && t.tokens[id].digest == digest && t.tokens[id].session == sid
  }

  /** The entries an outcome leaves: two for a login, one for a rotation, two for a detected
      replay, one for a logout and one, with its count, for a logout of everything. */
  ghost predicate EntriesOf(w: World, e: Event, o: Outcome, entries: seq<AuditEntry>) {
    match o
    case LoggedIn => e.Login? && entries == [LoginSucceeded(e.sid), SessionCreated(e.sid)]
    case Rotated => e.Commit? && e.request in w.pending && entries == [SessionRefreshed(w.pending[e.request].session.id)]
    case Replayed =>
      e.Read? && exists sid :: Presents(w.db, e.presented, sid) && entries == [ReplayDetected(sid), SessionRevoked(sid)]
    case LoggedOut => e.Logout? && entries == [SessionRevoked(e.sid)]
    case LoggedOutAll(count) => e.LogoutAll? && entries == [SessionRevokedAll(e.user, count)]
    case _ => entries == []
  }

  /** What a step appends. */
  function Appended(before: seq<AuditEntry>, after: seq<AuditEntry>): seq<AuditEntry> {
    if before <= after then after[|before|..] else []
  }

  lemma ReplayEntries(w: World, policy: Policy, auditing: bool, e: Event)
    requires e.Read? && StepRead(w, policy, auditing, e).1 == Replayed
    ensures exists sid ::
      && Presents(w.db, e.presented, sid)
      && StepRead(w, policy, auditing, e).0.audit == if auditing then w.audit + [ReplayDetected(sid), SessionRevoked(sid)] else w.audit
  {
    var sid := FindByDigest(w.db, e.presented).value.session;
    assert Presents(w.db, e.presented, sid);
  }

  /** Every step appends exactly the entries of its outcome when auditing is configured, and
      none otherwise; nothing already written is lost. */
  lemma StepAppends(w: World, policy: Policy, auditing: bool, e: Event)
    requires Enabled(w, e)
    ensures var (next, o) := Step(w, policy, auditing, e);
      && w.audit <= next.audit
      && (if auditing then EntriesOf(w, e, o, Appended(w.audit, next.audit)) else next.audit == w.audit)
  {
    var (next, o) := Step(w, policy, auditing, e);
    if o == Replayed { ReplayEntries(w, policy, auditing, e); }
    if e.Clean? { assert next.audit == w.audit; }
  }

  // ---------- whole runs ----------

  /** How often a run ended in this outcome for this session. */
  ghost function Logins(w: World, policy: Policy, auditing: bool, es: seq<Event>, sid: Uuid): nat
    requires Possible(w, policy, auditing, es)
    decreases |es|
  {
    if es == [] then 0
    else
      var (next, o) := Step(w, policy, auditing, es[0]);
      (if o == LoggedIn && es[0].sid == sid then 1 else 0) + Logins(next, policy, auditing, es[1..], sid)
  }

  /** Sessions ended one at a time: by their owner, or by a replay of one of their tokens. */
  ghost function Ended(w: World, policy: Policy, auditing: bool, es: seq<Event>, sid: Uuid): nat
    requires Possible(w, policy, auditing, es)
    decreases |es|
  {
    if es == [] then 0
    else
      var (next, o) := Step(w, policy, auditing, es[0]);
      (if (o == LoggedOut && es[0].sid == sid) || (o == Replayed && Presents(w.db, es[0].presented, sid)) then 1 else 0)
      + Ended(next, policy, auditing, es[1..], sid)
  }

  ghost function Replays(w: World, policy: Policy, auditing: bool, es: seq<Event>, sid: Uuid): nat
    requires Possible(w, policy, auditing, es)
    decreases |es|
  {
    if es == [] then 0
    else
      var (next, o) := Step(w, policy, auditing, es[0]);
      (if o == Replayed && Presents(w.db, es[0].presented, sid) then 1 else 0) + Replays(next, policy, auditing, es[1..], sid)
  }

  lemma {:induction false} CountJoined<T>(a: seq<T>, b: seq<T>, x: T)
    ensures Count(a + b, x) == Count(a, x) + Count(b, x)
  {
    if b == [] {
      assert a + b == a;
    } else {
      CountJoined(a, b[..|b| - 1], x);
      assert (a + b)[..|a + b| - 1] == a + b[..|b| - 1];
    }
  }

  lemma CountOfOne<T>(a: T, x: T)
    ensures Count([a], x) == if a == x then 1 else 0
  {
    CountAppend([], a, x);
    assert [] + [a] == [a];
  }

  lemma CountOfTwo<T>(a: T, b: T, x: T)
    ensures Count([a, b], x) == (if a == x then 1 else 0) + (if b == x then 1 else 0)
  {
    CountOfOne(a, x);
    CountAppend([a], b, x);
    assert [a] + [b] == [a, b];
  }

  lemma OnlyThatSession(t: Tables, digest: Digest, a: Uuid, b: Uuid)
    requires UniqueDigests(t.tokens) && Presents(t, digest, a) && Presents(t, digest, b)
    ensures a == b
  {
  }

  /** The four counters an outcome moves. */
  lemma EntriesCount(w: World, e: Event, o: Outcome, entries: seq<AuditEntry>, sid: Uuid)
    requires EntriesOf(w, e, o, entries) && UniqueDigests(w.db.tokens)
    ensures var login := if o == LoggedIn && e.sid == sid then 1 else 0;
      Count(entries, LoginSucceeded(sid)) == login && Count(entries, SessionCreated(sid)) == login
    ensures var replay := if o == Replayed && Presents(w.db, e.presented, sid) then 1 else 0;
      && Count(entries, ReplayDetected(sid)) == replay
      && Count(entries, SessionRevoked(sid)) == replay + if o == LoggedOut && e.sid == sid then 1 else 0
  {
    forall a: AuditEntry, x ensures Count([a], x) == if a == x then 1 else 0 { CountOfOne(a, x); }
    forall a: AuditEntry, b, x ensures Count([a, b], x) == (if a == x then 1 else 0) + (if b == x then 1 else 0) { CountOfTwo(a, b, x); }
    if o == Replayed {
      var s :| Presents(w.db, e.presented, s) && entries == [ReplayDetected(s), SessionRevoked(s)];
      if Presents(w.db, e.presented, sid) { OnlyThatSession(w.db, e.presented, s, sid); }
    }
  }

  /** Over every run the trail holds exactly one pair of entries for each login, one pair for
      each detected replay and one entry for each logout, of every session. */
  lemma {:induction false} AuditIsExact(w: World, policy: Policy, es: seq<Event>, sid: Uuid)
    requires Inv(w) && policy.Valid() && Possible(w, policy, true, es)
    ensures var after := Run(w, policy, true, es).audit;
      && w.audit <= after
      && Count(after, LoginSucceeded(sid)) == Count(w.audit, LoginSucceeded(sid)) + Logins(w, policy, true, es, sid)
      && Count(after, SessionCreated(sid)) == Count(w.audit, SessionCreated(sid)) + Logins(w, policy, true, es, sid)
      && Count(after, ReplayDetected(sid)) == Count(w.audit, ReplayDetected(sid)) + Replays(w, policy, true, es, sid)
      && Count(after, SessionRevoked(sid)) == Count(w.audit, SessionRevoked(sid)) + Ended(w, policy, true, es, sid)
    decreases |es|
  {
    if es != [] {
      var (next, o) := Step(w, policy, true, es[0]);
      StepAppends(w, policy, true, es[0]);
      StepKeepsInv(w, policy, true, es[0]);
      AuditIsExact(next, policy, es[1..], sid);
      var entries := Appended(w.audit, next.audit);
      assert next.audit == w.audit + entries;
      EntriesCount(w, es[0], o, entries, sid);
      CountJoined(w.audit, entries, LoginSucceeded(sid));
      CountJoined(w.audit, entries, SessionCreated(sid));
      CountJoined(w.audit, entries, ReplayDetected(sid));
      CountJoined(w.audit, entries, SessionRevoked(sid));
    }
  }

  /** Without an audit recorder nothing is written. */
  lemma {:induction false} NoAuditNoTrail(w: World, policy: Policy, es: seq<Event>)
    requires Possible(w, policy, false, es)
    ensures Run(w, policy, false, es).audit == w.audit
    decreases |es|
  {
    if es != [] {
      StepAppends(w, policy, false, es[0]);
      NoAuditNoTrail(Step(w, policy, false, es[0]).0, policy, es[1..]);
    }
  }
}
