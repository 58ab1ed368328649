/** Runs of check-then-record attempts against the limiter's counters
    (apps/api/routes/auth.py), with Redis answering and no success clearing them. */
module RateLimitRuns {
  import opened Common
  import opened RateLimiter

  /** What happens to one counter key: a check admits or refuses an attempt; an admitted
      attempt records its failure or ends without recording one. */
  datatype Event =
    | Admit(key: string, at: Instant)
    | Refuse(key: string, at: Instant)
    | Fail(key: string, at: Instant)
    | Leave(key: string, at: Instant)

  datatype State = State(counters: Counters, inFlight: map<string, nat>, clock: Instant) {
    function Flying(key: string): nat {
      if key in inFlight then inFlight[key] else 0
    }
  }

  type Limits = string -> Limit

  ghost predicate ValidLimits(limits: Limits) {
    forall key :: limits(key).key == key && limits(key).threshold > 0 && limits(key).seconds > 0
  }

  predicate Enabled(limits: Limits, k: nat, s: State, e: Event) {
    && e.at >= s.clock
    && match e
       case Admit(key, at) => Checked(s.counters, limits(key), at, at).allowed && s.Flying(key) < k
       case Refuse(key, at) => !Checked(s.counters, limits(key), at, at).allowed
       case Fail(key, _) => s.Flying(key) > 0
       case Leave(key, _) => s.Flying(key) > 0
  }

  function Step(limits: Limits, s: State, e: Event): State {
    match e
    case Admit(key, at) => s.(inFlight := s.inFlight[key := s.Flying(key) + 1], clock := at)
    case Refuse(_, at) => s.(clock := at)
    case Fail(key, at) =>
      State(CountersAfter(s.counters, limits(key), true, Contact(at, at, true, true)), Landed(s, key), at)
    case Leave(key, at) => s.(inFlight := Landed(s, key), clock := at)
  }

  function Landed(s: State, key: string): map<string, nat> {
    s.inFlight[key := if s.Flying(key) > 0 then s.Flying(key) - 1 else 0]
  }

  function After(limits: Limits, start: State, events: seq<Event>): State {
    if events == [] then start else Step(limits, After(limits, start, events[..|events| - 1]), events[|events| - 1])
  }

  predicate Possible(limits: Limits, k: nat, start: State, events: seq<Event>) {
    events == []
    || (Possible(limits, k, start, events[..|events| - 1])
        && Enabled(limits, k, After(limits, start, events[..|events| - 1]), events[|events| - 1]))
  }

  function Fresh(): State {
    State(map[], map[], 0)
  }

  /** Failures recorded on a key at times in [a, b). */
  function Failures(events: seq<Event>, key: string, a: Instant, b: Instant): nat {
    if events == [] then 0
    else
      var e := events[|events| - 1];
      Failures(events[..|events| - 1], key, a, b) + if e.Fail? && e.key == key && a <= e.at < b then 1 else 0
  }

  /** Failures of a limit in the half-open interval of its window's length beginning at a. */
  function Within(events: seq<Event>, limit: Limit, a: Instant): nat {
    Failures(events, limit.key, a, a + limit.Window())
  }

  // ---------- counting ----------

  lemma {:induction false} FailuresSplit(events: seq<Event>, key: string, a: Instant, m: Instant, b: Instant)
    requires a <= m <= b
    ensures Failures(events, key, a, b) == Failures(events, key, a, m) + Failures(events, key, m, b)
  {
    if events != [] { FailuresSplit(events[..|events| - 1], key, a, m, b); }
  }

  lemma OneMore(earlier: seq<Event>, e: Event, key: string, a: Instant, b: Instant)
    ensures Failures(earlier + [e], key, a, b)
      == Failures(earlier, key, a, b) + if e.Fail? && e.key == key && a <= e.at < b then 1 else 0
  {
    assert (earlier + [e])[..|earlier|] == earlier;
  }

  // ---------- the bound ----------

  /** The most failures one window can hold with k attempts in flight. */
  function WindowBound(limit: Limit, k: nat): int {
    limit.threshold + k - 1
  }

  /** The last window of `limit` holds all failures since its start, `count` of them; the
      window before it left less than a full one within reach of an interval. */
  ghost predicate WindowInv(limit: Limit, k: nat, s: State, events: seq<Event>) {
    if limit.key !in s.counters then
      forall a, b :: Failures(events, limit.key, a, b) == 0
    else
      LastWindow(limit, k, events, s.counters[limit.key].expires - limit.Window(), s.counters[limit.key].count, s.clock)
  }

  ghost predicate SilentFrom(events: seq<Event>, key: string, a: Instant) {
    forall b :: Failures(events, key, a, b) == 0
  }

  ghost predicate LastWindow(limit: Limit, k: nat, events: seq<Event>, start: Instant, count: nat, clock: Instant) {
    && start <= clock
    && 0 < count <= WindowBound(limit, k)
    && Failures(events, limit.key, start, start + limit.Window()) == count
    && Failures(events, limit.key, start, start + 1) >= 1
    && SilentFrom(events, limit.key, start + limit.Window())
    && (forall a :: start - limit.Window() < a <= start ==> Failures(events, limit.key, a, start) <= WindowBound(limit, k) - 1)
    && (forall a :: Within(events, limit, a) <= 2 * WindowBound(limit, k) - 1)
  }

  /** Recorded failures of the live window and admitted attempts share the bound. */
  ghost predicate Budget(limit: Limit, k: nat, s: State) {
    && s.Flying(limit.key) <= k
    && (forall now :: now >= s.clock ==> CountAt(s.counters, limit.key, now) + s.Flying(limit.key) <= WindowBound(limit, k))
  }

  ghost predicate Inv(limit: Limit, k: nat, s: State, events: seq<Event>) {
    WindowInv(limit, k, s, events) && Budget(limit, k, s)
  }

  lemma StepKeepsBudget(limits: Limits, k: nat, s: State, e: Event, key: string)
    requires ValidLimits(limits) && k > 0 && Enabled(limits, k, s, e) && Budget(limits(key), k, s)
    ensures Budget(limits(key), k, Step(limits, s, e))
  {
    var next := Step(limits, s, e);
    assert limits(e.key).key == e.key && limits(key).key == key;
    forall now | now >= next.clock
      ensures CountAt(next.counters, key, now) + next.Flying(key) <= WindowBound(limits(key), k)
    {
      assert CountAt(s.counters, key, now) + s.Flying(key) <= WindowBound(limits(key), k);
      assert CountAt(s.counters, key, e.at) + s.Flying(key) <= WindowBound(limits(key), k);
    }
  }

  /** A failure in a window that is still open. */
  lemma FailInOpenWindow(limit: Limit, k: nat, earlier: seq<Event>, start: Instant, count: nat, clock: Instant, at: Instant)
    requires limit.threshold > 0 && k > 0 && limit.Window() > 0
    requires LastWindow(limit, k, earlier, start, count, clock) && clock <= at < start + limit.Window()
    requires count < WindowBound(limit, k)
    ensures LastWindow(limit, k, earlier + [Fail(limit.key, at)], start, count + 1, at)
  {
    var e := Fail(limit.key, at);
    var events := earlier + [e];
    OneMore(earlier, e, limit.key, start, start + limit.Window());
    OneMore(earlier, e, limit.key, start, start + 1);
    var end := start + limit.Window();
    forall b ensures Failures(events, limit.key, end, b) == 0 { OneMore(earlier, e, limit.key, end, b); }
    forall a | start - limit.Window() < a <= start ensures Failures(events, limit.key, a, start) <= WindowBound(limit, k) - 1 {
      OneMore(earlier, e, limit.key, a, start);
    }
    forall a ensures Within(events, limit, a) <= 2 * WindowBound(limit, k) - 1 {
      OneMore(earlier, e, limit.key, a, a + limit.Window());
      assert Within(earlier, limit, a) <= 2 * WindowBound(limit, k) - 1;
      if a <= at < a + limit.Window() { IntervalAround(limit, k, earlier, start, count, clock, a); }
    }
  }

  /** An interval reaching into the last window meets at most the tail of the one before. */
  lemma IntervalAround(limit: Limit, k: nat, earlier: seq<Event>, start: Instant, count: nat, clock: Instant, a: Instant)
    requires limit.threshold > 0 && k > 0 && limit.Window() > 0
    requires LastWindow(limit, k, earlier, start, count, clock) && start - limit.Window() < a <= start + limit.Window()
    ensures Within(earlier, limit, a) <= WindowBound(limit, k) - 1 + count
  {
    var key, end := limit.key, start + limit.Window();
    if a <= start {
      FailuresSplit(earlier, key, a, start, a + limit.Window());
      FailuresSplit(earlier, key, start, a + limit.Window(), end);
    } else {
      FailuresSplit(earlier, key, start, a, end);
      FailuresSplit(earlier, key, a, end, a + limit.Window());
    }
  }

  /** Nothing recorded since the last window closed, and less than a full window just before. */
  lemma TailOfLastWindow(limit: Limit, k: nat, earlier: seq<Event>, start: Instant, count: nat, clock: Instant, at: Instant, a: Instant)
    requires limit.Window() > 0
    requires LastWindow(limit, k, earlier, start, count, clock)
    requires start + limit.Window() <= at && at - limit.Window() < a <= at
    ensures Failures(earlier, limit.key, a, at) <= WindowBound(limit, k) - 1
  {
    var key, end := limit.key, start + limit.Window();
    FailuresSplit(earlier, key, end, if a <= end then end else a, at);
    if a <= end {
      FailuresSplit(earlier, key, a, end, at);
      FailuresSplit(earlier, key, start, start + 1, a);
      FailuresSplit(earlier, key, start, a, end);
    }
  }

  lemma SilenceAfter(limit: Limit, k: nat, earlier: seq<Event>, start: Instant, count: nat, clock: Instant, at: Instant, b: Instant)
    requires LastWindow(limit, k, earlier, start, count, clock) && start + limit.Window() <= at <= b
    ensures Failures(earlier, limit.key, at, b) == 0
  {
    FailuresSplit(earlier, limit.key, start + limit.Window(), at, b);
  }

  /** A failure that opens a new window. */
  lemma FailOpensWindow(limit: Limit, k: nat, earlier: seq<Event>, at: Instant)
    requires limit.threshold > 0 && k > 0 && limit.Window() > 0
    requires forall a :: at - limit.Window() < a <= at ==> Failures(earlier, limit.key, a, at) <= WindowBound(limit, k) - 1
    requires forall b :: at <= b ==> Failures(earlier, limit.key, at, b) == 0
    requires forall a :: Within(earlier, limit, a) <= 2 * WindowBound(limit, k) - 1
    ensures LastWindow(limit, k, earlier + [Fail(limit.key, at)], at, 1, at)
  {
    var key, e := limit.key, Fail(limit.key, at);
    var events := earlier + [e];
    OneMore(earlier, e, key, at, at + limit.Window());
    OneMore(earlier, e, key, at, at + 1);
    var end := at + limit.Window();
    forall b ensures Failures(events, key, end, b) == 0 {
      OneMore(earlier, e, key, end, b);
      if b >= end { FailuresSplit(earlier, key, at, end, b); } else { EmptyInterval(earlier, key, end, b); }
    }
    forall a | at - limit.Window() < a <= at ensures Failures(events, key, a, at) <= WindowBound(limit, k) - 1 {
      OneMore(earlier, e, key, a, at);
    }
    forall a ensures Within(events, limit, a) <= 2 * WindowBound(limit, k) - 1 {
      OneMore(earlier, e, key, a, a + limit.Window());
      assert Within(earlier, limit, a) <= 2 * WindowBound(limit, k) - 1;
      if a <= at < a + limit.Window() {
        FailuresSplit(earlier, key, a, at, a + limit.Window());
        assert Failures(earlier, key, a, at) <= WindowBound(limit, k) - 1;
      }
    }
  }

  lemma {:induction false} EmptyInterval(events: seq<Event>, key: string, a: Instant, b: Instant)
    requires b <= a
    ensures Failures(events, key, a, b) == 0
  {
    if events != [] { EmptyInterval(events[..|events| - 1], key, a, b); }
  }

  lemma StepKeepsWindow(limits: Limits, k: nat, s: State, earlier: seq<Event>, e: Event, key: string)
    requires ValidLimits(limits) && k > 0 && Enabled(limits, k, s, e)
    requires Inv(limits(key), k, s, earlier)
    ensures WindowInv(limits(key), k, Step(limits, s, e), earlier + [e])
  {
    var limit := limits(key);
    assert limits(e.key).key == e.key && limit.key == key;
    if e.Fail? && e.key == key {
      FailKeepsWindow(limit, k, s, earlier, e.at);
    } else {
      forall a, b ensures Failures(earlier + [e], key, a, b) == Failures(earlier, key, a, b) {
        OneMore(earlier, e, key, a, b);
      }
      if key in s.counters {
        assert forall a :: Within(earlier + [e], limit, a) == Within(earlier, limit, a);
        var start := s.counters[key].expires - limit.Window();
        assert Failures(earlier, key, start, start + 1) >= 1;
        assert SilentFrom(earlier, key, start + limit.Window());
        assert LastWindow(limit, k, earlier + [e], start, s.counters[key].count, e.at);
      }
    }
  }

  lemma FailKeepsWindow(limit: Limit, k: nat, s: State, earlier: seq<Event>, at: Instant)
    requires limit.threshold > 0 && k > 0 && limit.Window() > 0
    requires Inv(limit, k, s, earlier) && at >= s.clock && s.Flying(limit.key) > 0
    ensures var counters := Incremented(s.counters, limit.key, limit.seconds, at);
      LastWindow(limit, k, earlier + [Fail(limit.key, at)],
                 counters[limit.key].expires - limit.Window(), counters[limit.key].count, at)
  {
    var key := limit.key;
    if Live(s.counters, key, at) {
      assert CountAt(s.counters, key, at) + s.Flying(key) <= WindowBound(limit, k);
      FailInOpenWindow(limit, k, earlier, s.counters[key].expires - limit.Window(), s.counters[key].count, s.clock, at);
    } else {
      if key in s.counters {
        var start, count := s.counters[key].expires - limit.Window(), s.counters[key].count;
        forall a | at - limit.Window() < a <= at ensures Failures(earlier, key, a, at) <= WindowBound(limit, k) - 1 {
          TailOfLastWindow(limit, k, earlier, start, count, s.clock, at, a);
        }
        forall b | at <= b ensures Failures(earlier, key, at, b) == 0 {
          SilenceAfter(limit, k, earlier, start, count, s.clock, at, b);
        }
      }
      FailOpensWindow(limit, k, earlier, at);
    }
  }

  lemma {:induction false} RunKeepsInv(limits: Limits, k: nat, events: seq<Event>, key: string)
    requires ValidLimits(limits) && k > 0 && Possible(limits, k, Fresh(), events)
    ensures Inv(limits(key), k, After(limits, Fresh(), events), events)
  {
    if events != [] {
      var earlier, e := events[..|events| - 1], events[|events| - 1];
      RunKeepsInv(limits, k, earlier, key);
      var s := After(limits, Fresh(), earlier);
      StepKeepsWindow(limits, k, s, earlier, e, key);
      StepKeepsBudget(limits, k, s, e, key);
      assert events == earlier + [e];
    } else {
      assert limits(key).key == key;
    }
  }

  /** With at most k attempts in flight, a window never holds more than T + k - 1 failures,
      and no interval of the window's length holds more than 2(T + k - 1) - 1. */
  lemma FailuresAreBounded(limits: Limits, k: nat, events: seq<Event>, key: string, a: Instant)
    requires ValidLimits(limits) && k > 0 && Possible(limits, k, Fresh(), events)
    ensures var s := After(limits, Fresh(), events);
      && CountAt(s.counters, key, s.clock) <= limits(key).threshold + k - 1
      && Within(events, limits(key), a) <= 2 * (limits(key).threshold + k - 1) - 1
  {
    RunKeepsInv(limits, k, events, key);
    assert limits(key).key == key;
  }

  // ---------- waiting out a denial ----------

  predicate Quiet(events: seq<Event>, key: string) {
    forall i :: 0 <= i < |events| && events[i].Fail? ==> events[i].key != key
  }

  lemma {:induction false} QuietKeepsCounter(limits: Limits, s: State, events: seq<Event>, key: string)
    requires ValidLimits(limits) && Quiet(events, key)
    ensures var after := After(limits, s, events);
      && (key in after.counters <==> key in s.counters)
      && (key in s.counters ==> after.counters[key] == s.counters[key])
  {
    if events != [] {
      QuietKeepsCounter(limits, s, events[..|events| - 1], key);
      var e := events[|events| - 1];
      assert limits(e.key).key == e.key;
    }
  }

  /** Milliseconds until a full counter disappears. */
  function Left(c: Counters, limit: Limit, at: Instant): int {
    if Live(c, limit.key, at) && c[limit.key].count >= limit.threshold then c[limit.key].expires - at else 0
  }

  /** Redis rounds the seconds left to the nearest, so an announced wait may end up to this
      long before the window does. */
  const ROUNDED_OFF := 499

  /** A denied login whose caller waits the announced time, and what rounding may have taken
      off it, is admitted, provided neither of its two counters saw another failure meanwhile. */
  lemma DenialEnds(limits: Limits, s: State, first: string, second: string, x: Contact, y: Contact,
                   events: seq<Event>, policy: FailurePolicy, x': Contact, y': Contact)
    requires ValidLimits(limits) && x.up && y.up && x'.up && y'.up
    requires s.clock <= x.at <= x.ttlAt <= y.at <= y.ttlAt
    requires !AnsweredTwice(s.counters, policy, limits(first), limits(second), false, x, y).0.value.allowed
    requires Quiet(events, first) && Quiet(events, second)
    requires var retry := AnsweredTwice(s.counters, policy, limits(first), limits(second), false, x, y).0.value.retryAfter;
      var end := y.ttlAt + Milliseconds(retry) + ROUNDED_OFF;
      end <= x'.at && end <= y'.at
    ensures AnsweredTwice(After(limits, s, events).counters, policy, limits(first), limits(second), false, x', y').0
      == Success(RateLimitDecision(true, 0))
  {
    QuietKeepsCounter(limits, s, events, first);
    QuietKeepsCounter(limits, s, events, second);
    assert limits(first).key == first && limits(second).key == second;
  }

  /** Exact condition: the announced time alone is enough for a login if and only if neither
      full counter outlasts it. */
  lemma AnnouncedWaitEndsDenialIff(limits: Limits, s: State, first: string, second: string, x: Contact, y: Contact,
                                   events: seq<Event>, policy: FailurePolicy, x': Contact, y': Contact)
    requires ValidLimits(limits) && x.up && y.up && x'.up && y'.up
    requires s.clock <= x.at <= x.ttlAt <= y.at <= y.ttlAt
    requires !AnsweredTwice(s.counters, policy, limits(first), limits(second), false, x, y).0.value.allowed
    requires Quiet(events, first) && Quiet(events, second)
    requires x'.at == y'.at
      == y.ttlAt + Milliseconds(AnsweredTwice(s.counters, policy, limits(first), limits(second), false, x, y).0.value.retryAfter)
    ensures AnsweredTwice(After(limits, s, events).counters, policy, limits(first), limits(second), false, x', y').0.value.allowed
      <==> Left(s.counters, limits(first), y.ttlAt) <= x'.at - y.ttlAt && Left(s.counters, limits(second), y.ttlAt) <= x'.at - y.ttlAt
  {
    QuietKeepsCounter(limits, s, events, first);
    QuietKeepsCounter(limits, s, events, second);
    assert limits(first).key == first && limits(second).key == second;
  }

  /** The same for the single refresh counter. */
  lemma RefreshDenialEnds(limits: Limits, s: State, key: string, x: Contact, events: seq<Event>, policy: FailurePolicy, x': Contact)
    requires ValidLimits(limits) && x.up && x'.up && s.clock <= x.at <= x.ttlAt
    requires !Answered(s.counters, policy, limits(key), false, x).value.allowed
    requires Quiet(events, key)
    requires x.ttlAt + Milliseconds(Answered(s.counters, policy, limits(key), false, x).value.retryAfter) + ROUNDED_OFF <= x'.at
    ensures Answered(After(limits, s, events).counters, policy, limits(key), false, x') == Success(RateLimitDecision(true, 0))
  {
    QuietKeepsCounter(limits, s, events, key);
    assert limits(key).key == key;
  }

  /** Exact condition: the announced time alone is enough for a refresh if and only if the
      milliseconds left were not rounded down. With less than half a second left the whole
      window is announced. */
  lemma AnnouncedWaitEndsRefreshDenialIff(limits: Limits, s: State, key: string, x: Contact, events: seq<Event>,
                                          policy: FailurePolicy, x': Contact)
    requires ValidLimits(limits) && x.up && x'.up && s.clock <= x.at <= x.ttlAt
    requires !Answered(s.counters, policy, limits(key), false, x).value.allowed
    requires Quiet(events, key)
    requires x'.at == x.ttlAt + Milliseconds(Answered(s.counters, policy, limits(key), false, x).value.retryAfter)
    ensures var left := Left(s.counters, limits(key), x.ttlAt);
      Answered(After(limits, s, events).counters, policy, limits(key), false, x').value.allowed
      <==> left % 1000 == 0 || left % 1000 >= 500 || left < 500
  {
    QuietKeepsCounter(limits, s, events, key);
    assert limits(key).key == key;
  }

  /** A run whose refused attempt is told to wait three seconds and is refused again after them. */
  lemma RoundedWaitCanBeTooShort(key: string) returns (limits: Limits, events: seq<Event>)
    ensures ValidLimits(limits) && Possible(limits, 1, Fresh(), events)
    ensures events == [Admit(key, 0), Fail(key, 0), Refuse(key, 600), Refuse(key, 600 + Milliseconds(3))]
    ensures Checked(After(limits, Fresh(), events[..2]).counters, limits(key), 600, 600) == RateLimitDecision(false, 3)
  {
    limits := k => Limit(k, 1, 4);
    events := [Admit(key, 0), Fail(key, 0), Refuse(key, 600), Refuse(key, 600 + Milliseconds(3))];
    var admit, fail, early, late := events[0], events[1], events[2], events[3];
    Snoc(limits, 1, Fresh(), [], admit);
    Snoc(limits, 1, Fresh(), [] + [admit], fail);
    assert After(limits, Fresh(), [] + [admit] + [fail]).counters == map[key := Counter(1, 4000)];
    Snoc(limits, 1, Fresh(), [] + [admit] + [fail], early);
    Snoc(limits, 1, Fresh(), [] + [admit] + [fail] + [early], late);
    assert events == [] + [admit] + [fail] + [early] + [late] && events[..2] == [] + [admit] + [fail];
  }

  // ---------- the bound is attained ----------

  lemma Snoc(limits: Limits, k: nat, s: State, events: seq<Event>, e: Event)
    ensures Possible(limits, k, s, events + [e]) <==> Possible(limits, k, s, events) && Enabled(limits, k, After(limits, s, events), e)
    ensures After(limits, s, events + [e]) == Step(limits, After(limits, s, events), e)
  {
    assert (events + [e])[..|events|] == events;
  }

  lemma {:induction false} Compose(limits: Limits, k: nat, s: State, a: seq<Event>, b: seq<Event>)
    requires Possible(limits, k, s, a) && Possible(limits, k, After(limits, s, a), b)
    ensures Possible(limits, k, s, a + b) && After(limits, s, a + b) == After(limits, After(limits, s, a), b)
  {
    if b == [] {
      assert a + b == a;
    } else {
      Compose(limits, k, s, a, b[..|b| - 1]);
      assert (a + b)[..|a + b| - 1] == a + b[..|b| - 1];
    }
  }

  lemma {:induction false} FailuresAppend(a: seq<Event>, b: seq<Event>, key: string, lo: Instant, hi: Instant)
    ensures Failures(a + b, key, lo, hi) == Failures(a, key, lo, hi) + Failures(b, key, lo, hi)
  {
    if b == [] {
      assert a + b == a;
    } else {
      FailuresAppend(a, b[..|b| - 1], key, lo, hi);
      assert (a + b)[..|a + b| - 1] == a + b[..|b| - 1];
    }
  }

  /** What the construction needs to know of a state: the key's live count at t, and attempts in flight. */
  ghost predicate Stands(limits: Limits, s: State, key: string, t: Instant, count: nat, flying: nat) {
    s.clock <= t && CountAt(s.counters, key, t) == count && s.Flying(key) == flying
  }

  /** n failures at t leave the window that was live at t, or the one opened by the first of them. */
  ghost predicate OpenedAt(limits: Limits, s: State, after: State, key: string, t: Instant, n: nat) {
    if n == 0 then after.counters == s.counters
    else
      && key in after.counters
      && after.counters[key].expires == if Live(s.counters, key, t) then s.counters[key].expires else t + limits(key).Window()
  }

  lemma AdmitOne(limits: Limits, k: nat, s: State, key: string, t: Instant, count: nat, flying: nat)
    requires ValidLimits(limits) && Stands(limits, s, key, t, count, flying)
    requires count < limits(key).threshold && flying < k
    ensures Enabled(limits, k, s, Admit(key, t))
    ensures Stands(limits, Step(limits, s, Admit(key, t)), key, t, count, flying + 1)
  {
    assert limits(key).key == key;
  }

  lemma FailOne(limits: Limits, k: nat, s: State, key: string, t: Instant, count: nat, flying: nat)
    requires ValidLimits(limits) && Stands(limits, s, key, t, count, flying) && flying > 0
    ensures Enabled(limits, k, s, Fail(key, t))
    ensures Stands(limits, Step(limits, s, Fail(key, t)), key, t, count + 1, flying - 1)
    ensures OpenedAt(limits, s, Step(limits, s, Fail(key, t)), key, t, 1)
  {
    assert limits(key).key == key && limits(key).Window() > 0;
  }

  lemma OpenedAgain(limits: Limits, s: State, middle: State, after: State, key: string, t: Instant, n: nat)
    requires ValidLimits(limits) && OpenedAt(limits, s, middle, key, t, n) && OpenedAt(limits, middle, after, key, t, 1)
    ensures OpenedAt(limits, s, after, key, t, n + 1)
  {
    assert limits(key).Window() > 0;
  }

  /** The block records exactly n failures on the key, all at time t. */
  ghost predicate FailsAt(block: seq<Event>, key: string, t: Instant, n: nat) {
    forall lo, hi :: Failures(block, key, lo, hi) == if lo <= t < hi then n else 0
  }

  lemma FailsMore(block: seq<Event>, e: Event, key: string, t: Instant, n: nat)
    requires FailsAt(block, key, t, n) && e.key == key && e.at == t
    ensures FailsAt(block + [e], key, t, if e.Fail? then n + 1 else n)
  {
    forall lo, hi ensures Failures(block + [e], key, lo, hi) == if lo <= t < hi then (if e.Fail? then n + 1 else n) else 0 {
      OneMore(block, e, key, lo, hi);
    }
  }

  lemma {:induction false} AdmitMany(limits: Limits, k: nat, s: State, key: string, t: Instant, count: nat, flying: nat, n: nat)
    returns (block: seq<Event>)
    requires ValidLimits(limits) && Stands(limits, s, key, t, count, flying)
    requires count < limits(key).threshold && flying + n <= k
    ensures Possible(limits, k, s, block) && FailsAt(block, key, t, 0)
    ensures Stands(limits, After(limits, s, block), key, t, count, flying + n) && After(limits, s, block).counters == s.counters
  {
    if n == 0 {
      block := [];
    } else {
      var before := AdmitMany(limits, k, s, key, t, count, flying, n - 1);
      AdmitOne(limits, k, After(limits, s, before), key, t, count, flying + n - 1);
      Snoc(limits, k, s, before, Admit(key, t));
      FailsMore(before, Admit(key, t), key, t, 0);
      block := before + [Admit(key, t)];
    }
  }

  lemma {:induction false} FailMany(limits: Limits, k: nat, s: State, key: string, t: Instant, count: nat, flying: nat, n: nat)
    returns (block: seq<Event>)
    requires ValidLimits(limits) && Stands(limits, s, key, t, count, flying) && n <= flying
    ensures Possible(limits, k, s, block) && FailsAt(block, key, t, n)
    ensures Stands(limits, After(limits, s, block), key, t, count + n, flying - n)
    ensures OpenedAt(limits, s, After(limits, s, block), key, t, n)
  {
    if n == 0 {
      block := [];
    } else {
      var before := FailMany(limits, k, s, key, t, count, flying, n - 1);
      var middle := After(limits, s, before);
      FailOne(limits, k, middle, key, t, count + n - 1, flying - n + 1);
      Snoc(limits, k, s, before, Fail(key, t));
      OpenedAgain(limits, s, middle, Step(limits, middle, Fail(key, t)), key, t, n - 1);
      FailsMore(before, Fail(key, t), key, t, n - 1);
      block := before + [Fail(key, t)];
    }
  }

  /** One attempt after another, each admitted and then failing. */
  lemma {:induction false} FailInTurn(limits: Limits, k: nat, s: State, key: string, t: Instant, count: nat, flying: nat, n: nat)
    returns (block: seq<Event>)
    requires ValidLimits(limits) && Stands(limits, s, key, t, count, flying)
    requires flying < k && count + n <= limits(key).threshold
    ensures Possible(limits, k, s, block) && FailsAt(block, key, t, n)
    ensures Stands(limits, After(limits, s, block), key, t, count + n, flying)
    ensures OpenedAt(limits, s, After(limits, s, block), key, t, n)
  {
    if n == 0 {
      block := [];
    } else {
      var before := FailInTurn(limits, k, s, key, t, count, flying, n - 1);
      var a, f := Admit(key, t), Fail(key, t);
      var middle := After(limits, s, before);
      AdmitOne(limits, k, middle, key, t, count + n - 1, flying);
      Snoc(limits, k, s, before, a);
      FailsMore(before, a, key, t, n - 1);
      var admitted := Step(limits, middle, a);
      FailOne(limits, k, admitted, key, t, count + n - 1, flying + 1);
      Snoc(limits, k, s, before + [a], f);
      FailsMore(before + [a], f, key, t, n - 1);
      OpenedAgain(limits, s, admitted, Step(limits, admitted, f), key, t, n - 1);
      block := before + [a] + [f];
    }
  }

  /** The window ending at `end` is open and holds `count` failures. */
  ghost predicate Filling(s: State, key: string, end: Instant, count: nat, flying: nat) {
    && key in s.counters && s.counters[key] == Counter(count, end)
    && s.clock < end && s.Flying(key) == flying
  }

  lemma Joined(limits: Limits, k: nat, s: State, a: seq<Event>, b: seq<Event>, key: string, t: Instant, m: nat, n: nat)
    requires Possible(limits, k, s, a) && Possible(limits, k, After(limits, s, a), b)
    requires FailsAt(a, key, t, m) && FailsAt(b, key, t, n)
    ensures Possible(limits, k, s, a + b) && After(limits, s, a + b) == After(limits, After(limits, s, a), b)
    ensures FailsAt(a + b, key, t, m + n)
  {
    Compose(limits, k, s, a, b);
    forall lo, hi ensures Failures(a + b, key, lo, hi) == if lo <= t < hi then m + n else 0 {
      FailuresAppend(a, b, key, lo, hi);
    }
  }

  /** k - 1 attempts wait in flight while a first failure opens the window. */
  lemma WindowOpens(limits: Limits, k: nat, s: State, key: string, first: Instant) returns (block: seq<Event>)
    requires ValidLimits(limits) && k > 0 && Stands(limits, s, key, first, 0, 0) && !Live(s.counters, key, first)
    ensures Possible(limits, k, s, block) && FailsAt(block, key, first, 1)
    ensures After(limits, s, block).clock <= first
    ensures Filling(After(limits, s, block), key, first + limits(key).Window(), 1, k - 1)
  {
    assert limits(key).key == key && limits(key).Window() > 0;
    var parked := AdmitMany(limits, k, s, key, first, 0, 0, k - 1);
    var one := FailInTurn(limits, k, After(limits, s, parked), key, first, 0, k - 1, 1);
    Joined(limits, k, s, parked, one, key, first, 0, 1);
    block := parked + one;
  }

  /** The failures up to the threshold come one by one, then the waiting ones. */
  lemma WindowFills(limits: Limits, k: nat, s: State, key: string, rest: Instant, end: Instant) returns (block: seq<Event>)
    requires ValidLimits(limits) && k > 0 && s.clock <= rest < end && Filling(s, key, end, 1, k - 1)
    ensures Possible(limits, k, s, block) && FailsAt(block, key, rest, limits(key).threshold + k - 2)
    ensures Filling(After(limits, s, block), key, end, limits(key).threshold + k - 1, 0)
  {
    var T := limits(key).threshold;
    var turns := FailInTurn(limits, k, s, key, rest, 1, k - 1, T - 1);
    var middle := After(limits, s, turns);
    assert middle.counters[key].expires == end;
    var landings := FailMany(limits, k, middle, key, rest, T, k - 1, k - 1);
    Joined(limits, k, s, turns, landings, key, rest, T - 1, k - 1);
    block := turns + landings;
  }

  ghost predicate IsFullWindow(block: seq<Event>, limit: Limit, k: nat, first: Instant, rest: Instant) {
    forall lo, hi {:trigger Failures(block, limit.key, lo, hi)} ::
      Failures(block, limit.key, lo, hi) == (if lo <= first < hi then 1 else 0) + (if lo <= rest < hi then limit.threshold + k - 2 else 0)
  }

  lemma TwoFullWindows(limit: Limit, k: nat, w1: seq<Event>, w2: seq<Event>)
    requires limit.Window() >= 2 && limit.threshold > 0 && k > 0
    requires IsFullWindow(w1, limit, k, 0, limit.Window() - 1) && IsFullWindow(w2, limit, k, limit.Window(), limit.Window())
    ensures Within(w1 + w2, limit, 1) == 2 * (limit.threshold + k - 1) - 1
  {
    FailuresAppend(w1, w2, limit.key, 1, 1 + limit.Window());
  }

  /** One full window: its first failure at one moment, all others at another. */
  lemma WindowCanFill(limits: Limits, k: nat, s: State, key: string, first: Instant, rest: Instant) returns (block: seq<Event>)
    requires ValidLimits(limits) && k > 0 && Stands(limits, s, key, first, 0, 0) && !Live(s.counters, key, first)
    requires first <= rest < first + limits(key).Window()
    ensures Possible(limits, k, s, block)
    ensures Filling(After(limits, s, block), key, first + limits(key).Window(), limits(key).threshold + k - 1, 0)
    ensures IsFullWindow(block, limits(key), k, first, rest)
  {
    assert limits(key).key == key;
    var opening := WindowOpens(limits, k, s, key, first);
    var filling := WindowFills(limits, k, After(limits, s, opening), key, rest, first + limits(key).Window());
    Compose(limits, k, s, opening, filling);
    block := opening + filling;
    forall lo, hi ensures Failures(block, key, lo, hi)
      == (if lo <= first < hi then 1 else 0) + (if lo <= rest < hi then limits(key).threshold + k - 2 else 0)
    {
      FailuresAppend(opening, filling, key, lo, hi);
    }
  }

  /** For every threshold, every window and every k, some run reaches the interval bound exactly. */
  lemma BoundIsTight(limits: Limits, k: nat, key: string) returns (events: seq<Event>, a: Instant)
    requires ValidLimits(limits) && k > 0
    ensures Possible(limits, k, Fresh(), events)
    ensures Within(events, limits(key), a) == 2 * (limits(key).threshold + k - 1) - 1
  {
    var W := limits(key).Window();
    assert limits(key).key == key;
    var w1 := WindowCanFill(limits, k, Fresh(), key, 0, W - 1);
    var w2 := WindowCanFill(limits, k, After(limits, Fresh(), w1), key, W, W);
    Compose(limits, k, Fresh(), w1, w2);
    TwoFullWindows(limits(key), k, w1, w2);
    events, a := w1 + w2, 1;
  }
}
