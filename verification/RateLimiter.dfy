/** The fixed-window authentication limiter over Redis counters
    (infrastructure/security/rate_limit.py). Redis counts time in milliseconds, which is the
    unit of all instants; windows and announced waits are in seconds. */
module RateLimiter {
  import opened Common

  /** A Redis key holding a failure count that disappears at `expires`. */
  datatype Counter = Counter(count: nat, expires: Instant)

  type Counters = map<string, Counter>

  predicate Live(c: Counters, key: string, now: Instant) {
    key in c && now < c[key].expires
  }

  function CountAt(c: Counters, key: string, now: Instant): nat {
    if Live(c, key, now) then c[key].count else 0
  }

  /** TTL answers the seconds left, rounded to the nearest, and -2 for a key that does not exist. */
  function TtlAt(c: Counters, key: string, now: Instant): int {
    if Live(c, key, now) then (c[key].expires - now + 500) / 1000 else -2
  }

  function Milliseconds(seconds: int): int {
    1000 * seconds
  }

  /** The increment script: INCR, and EXPIRE when the window has just been opened. */
  function Incremented(c: Counters, key: string, seconds: nat, now: Instant): Counters {
    c[key := if Live(c, key, now) then Counter(c[key].count + 1, c[key].expires) else Counter(1, now + Milliseconds(seconds))]
  }

  datatype RateLimitDecision = RateLimitDecision(allowed: bool, retryAfter: int)

  datatype FailurePolicy = Open | Closed

  datatype Unavailable = Unavailable

  datatype Limit = Limit(key: string, threshold: nat, seconds: nat) {
    /** The length of the window. */
    function Window(): nat {
      Milliseconds(seconds)
    }
  }

  datatype Settings = Settings(
    loginIdentifierThreshold: nat, loginClientThreshold: nat, loginWindow: nat,
    refreshClientThreshold: nat, refreshWindow: nat, failurePolicy: FailurePolicy)
  {
    predicate Valid() {
      loginIdentifierThreshold > 0 && loginClientThreshold > 0 && loginWindow > 0 && refreshClientThreshold > 0 && refreshWindow > 0
    }
  }

  function Decide(limit: Limit, count: nat, ttl: int): RateLimitDecision {
    if count < limit.threshold then RateLimitDecision(true, 0)
    else RateLimitDecision(false, if ttl > 0 then ttl else limit.seconds)
  }

  function Combine(a: RateLimitDecision, b: RateLimitDecision): RateLimitDecision {
    if a.allowed && b.allowed then RateLimitDecision(true, 0)
    else RateLimitDecision(false, if a.retryAfter >= b.retryAfter then a.retryAfter else b.retryAfter)
  }

  /** A check reads the count and then, at a later moment, the time to live. */
  function Checked(c: Counters, limit: Limit, at: Instant, ttlAt: Instant): RateLimitDecision {
    Decide(limit, CountAt(c, limit.key, at), TtlAt(c, limit.key, ttlAt))
  }

  function Recorded(c: Counters, limit: Limit, at: Instant): RateLimitDecision {
    var after := Incremented(c, limit.key, limit.seconds, at);
    Checked(after, limit, at, at)
  }

  /** The moments at which one decision talks to Redis, whether Redis answers, and if not,
      whether it had applied the script before the connection failed. */
  datatype Contact = Contact(at: Instant, ttlAt: Instant, up: bool, applied: bool)

  type Answer = Result<RateLimitDecision, Unavailable>

  function Answered(c: Counters, policy: FailurePolicy, limit: Limit, increment: bool, contact: Contact): Answer {
    if contact.up then
      Success(if increment then Recorded(c, limit, contact.at) else Checked(c, limit, contact.at, contact.ttlAt))
    else if policy.Open? then Success(RateLimitDecision(true, 0))
    else Failure(Unavailable)
  }

  function CountersAfter(c: Counters, limit: Limit, increment: bool, contact: Contact): Counters {
    if (contact.up || contact.applied) && increment then Incremented(c, limit.key, limit.seconds, contact.at) else c
  }

  /** Two counters, one after the other; an outage on the first leaves the second alone. */
  function AnsweredTwice(c: Counters, policy: FailurePolicy, first: Limit, second: Limit, increment: bool, x: Contact, y: Contact)
    : (Answer, Counters)
  {
    var middle := CountersAfter(c, first, increment, x);
    match Answered(c, policy, first, increment, x)
    case Failure(e) => (Failure(e), middle)
    case Success(a) =>
      var after := CountersAfter(middle, second, increment, y);
      match Answered(middle, policy, second, increment, y)
      case Failure(e) => (Failure(e), after)
      case Success(b) => (Success(Combine(a, b)), after)
  }

  // ---------- keys ----------

  const IDENTIFIER_PREFIX := "workflowforge:ratelimit:login:identifier:"
  const LOGIN_CLIENT_PREFIX := "workflowforge:ratelimit:login:client:"
  const REFRESH_CLIENT_PREFIX := "workflowforge:ratelimit:refresh:client:"

  predicate SafeChar(c: char) {
    'A' <= c <= 'Z' || 'a' <= c <= 'z' || '0' <= c <= '9' || c in "_.:-"
  }

  function SafeClient(hash: string -> string, client: Option<string>): string {
    if client.None? || client.value == "" then "unknown"
    else hash(Shown(client.value))
  }

  /** The first 128 characters, unsafe ones replaced. */
  function Shown(client: string): (shown: string)
    ensures |shown| == if |client| <= 128 then |client| else 128
    ensures forall i :: 0 <= i < |shown| ==> shown[i] == if SafeChar(client[i]) then client[i] else '_'
  {
    seq(if |client| <= 128 then |client| else 128, i requires 0 <= i < |client| => if SafeChar(client[i]) then client[i] else '_')
  }

  function IdentifierKey(hash: string -> string, identifier: string): string {
    IDENTIFIER_PREFIX + hash(identifier)
  }

  function LoginClientKey(hash: string -> string, client: Option<string>): string {
    LOGIN_CLIENT_PREFIX + SafeClient(hash, client)
  }

  function RefreshClientKey(hash: string -> string, client: Option<string>): string {
    REFRESH_CLIENT_PREFIX + SafeClient(hash, client)
  }

  function IdentifierLimit(settings: Settings, hash: string -> string, identifier: string): Limit {
    Limit(IdentifierKey(hash, identifier), settings.loginIdentifierThreshold, settings.loginWindow)
  }

  function LoginClientLimit(settings: Settings, hash: string -> string, client: Option<string>): Limit {
    Limit(LoginClientKey(hash, client), settings.loginClientThreshold, settings.loginWindow)
  }

  function RefreshLimit(settings: Settings, hash: string -> string, client: Option<string>): Limit {
    Limit(RefreshClientKey(hash, client), settings.refreshClientThreshold, settings.refreshWindow)
  }

  /** Whatever the hash is, the three counter families never share a key. */
  lemma CounterFamiliesAreDisjoint(hash: string -> string, identifier: string, a: Option<string>, b: Option<string>)
    ensures IdentifierKey(hash, identifier) != LoginClientKey(hash, a)
    ensures IdentifierKey(hash, identifier) != RefreshClientKey(hash, a)
    ensures LoginClientKey(hash, a) != RefreshClientKey(hash, b)
  {
    assert IdentifierKey(hash, identifier)[30] == IDENTIFIER_PREFIX[30] == 'i';
    assert LoginClientKey(hash, a)[30] == LOGIN_CLIENT_PREFIX[30] == 'c';
    assert IdentifierKey(hash, identifier)[24] == IDENTIFIER_PREFIX[24] == 'l';
    assert LoginClientKey(hash, a)[24] == LOGIN_CLIENT_PREFIX[24] == 'l';
    assert RefreshClientKey(hash, a)[24] == REFRESH_CLIENT_PREFIX[24] == 'r';
    assert RefreshClientKey(hash, b)[24] == REFRESH_CLIENT_PREFIX[24] == 'r';
  }

  /** Identifiers share a counter only when they are the same. */
  lemma IdentifierKeysDiffer(hash: string -> string, a: string, b: string)
    requires forall s, t :: hash(s) == hash(t) ==> s == t
    ensures IdentifierKey(hash, a) == IdentifierKey(hash, b) <==> a == b
  {
    assert IdentifierKey(hash, a)[|IDENTIFIER_PREFIX|..] == hash(a);
    assert IdentifierKey(hash, b)[|IDENTIFIER_PREFIX|..] == hash(b);
  }

  predicate Anonymous(client: Option<string>) {
    client == None || client == Some("")
  }

  /** Equal, or both shown as an underscore. */
  predicate LookAlike(c: char, d: char) {
    c == d || ((!SafeChar(c) || c == '_') && (!SafeChar(d) || d == '_'))
  }

  /** Clients the limiter does not tell apart: alike in their first 128 characters. */
  ghost predicate SameClient(a: Option<string>, b: Option<string>) {
    if Anonymous(a) || Anonymous(b) then Anonymous(a) && Anonymous(b)
    else
      && (|a.value| == |b.value| || (|a.value| >= 128 && |b.value| >= 128))
      && forall i :: 0 <= i < |a.value| && i < |b.value| && i < 128 ==> LookAlike(a.value[i], b.value[i])
  }

  lemma ShownAlike(a: string, b: string)
    requires a != "" && b != ""
    ensures Shown(a) == Shown(b) <==> SameClient(Some(a), Some(b))
  {
    if Shown(a) == Shown(b) {
      forall i | 0 <= i < |a| && i < |b| && i < 128 ensures LookAlike(a[i], b[i]) {
        assert Shown(a)[i] == Shown(b)[i];
      }
    }
    if SameClient(Some(a), Some(b)) {
      forall i | 0 <= i < |Shown(a)| ensures Shown(a)[i] == Shown(b)[i] {
        assert LookAlike(a[i], b[i]);
      }
    }
  }

  lemma SafeClientsDiffer(hash: string -> string, a: Option<string>, b: Option<string>)
    requires (forall s, t :: hash(s) == hash(t) ==> s == t) && forall s :: |hash(s)| == 64
    ensures SafeClient(hash, a) == SafeClient(hash, b) <==> SameClient(a, b)
  {
    if !Anonymous(a) && !Anonymous(b) {
      assert SafeClient(hash, a) == hash(Shown(a.value)) && SafeClient(hash, b) == hash(Shown(b.value));
      ShownAlike(a.value, b.value);
    }
  }

  /** Clients share a counter exactly when the limiter shows them alike. */
  lemma ClientKeysDiffer(hash: string -> string, a: Option<string>, b: Option<string>)
    requires (forall s, t :: hash(s) == hash(t) ==> s == t) && forall s :: |hash(s)| == 64
    ensures LoginClientKey(hash, a) == LoginClientKey(hash, b) <==> SameClient(a, b)
    ensures RefreshClientKey(hash, a) == RefreshClientKey(hash, b) <==> SameClient(a, b)
  {
    SafeClientsDiffer(hash, a, b);
    assert LoginClientKey(hash, a)[|LOGIN_CLIENT_PREFIX|..] == SafeClient(hash, a);
    assert LoginClientKey(hash, b)[|LOGIN_CLIENT_PREFIX|..] == SafeClient(hash, b);
    assert RefreshClientKey(hash, a)[|REFRESH_CLIENT_PREFIX|..] == SafeClient(hash, a);
    assert RefreshClientKey(hash, b)[|REFRESH_CLIENT_PREFIX|..] == SafeClient(hash, b);
  }

  // ---------- what callers see ----------

  /** The wait announced for a full counter. */
  function Wait(c: Counters, key: string, seconds: nat, at: Instant): int {
    if TtlAt(c, key, at) > 0 then TtlAt(c, key, at) else seconds
  }

  /** An attempt is allowed while the counter is below its threshold; an outage allows it or is
      reported, as the policy says. */
  function Judged(c: Counters, policy: FailurePolicy, key: string, threshold: nat, seconds: nat, up: bool, at: Instant, ttlAt: Instant): Answer {
    if !up then if policy.Open? then Success(RateLimitDecision(true, 0)) else Failure(Unavailable)
    else if CountAt(c, key, at) < threshold then Success(RateLimitDecision(true, 0))
    else Success(RateLimitDecision(false, Wait(c, key, seconds, ttlAt)))
  }

  /** Two counters: a refusal by either is a refusal, with the longer of the waits; an outage
      that is not let through is reported. */
  ghost predicate JudgedTogether(a: Answer, b: Answer, r: Answer) {
    if a.Failure? || b.Failure? then r == Failure(Unavailable)
    else
      && r.Success? && (r.value.allowed <==> a.value.allowed && b.value.allowed)
      && r.value.retryAfter >= a.value.retryAfter && r.value.retryAfter >= b.value.retryAfter
      && (r.value.retryAfter == a.value.retryAfter || r.value.retryAfter == b.value.retryAfter)
  }

  /** One more failure on the key, in the window open at that moment or in a new one. */
  ghost predicate OneMoreFailure(before: Counters, after: Counters, key: string, seconds: nat, at: Instant) {
    key in after
    && if key in before && at < before[key].expires then after[key] == Counter(before[key].count + 1, before[key].expires)
       else after[key] == Counter(1, at + 1000 * seconds)
  }

  ghost predicate SameAt(before: Counters, after: Counters, key: string) {
    (key in before <==> key in after) && (key in before ==> after[key] == before[key])
  }

  ghost predicate Counted(before: Counters, after: Counters, key: string, seconds: nat, at: Instant, hit: bool) {
    if hit then OneMoreFailure(before, after, key, seconds, at) else SameAt(before, after, key)
  }

  ghost predicate OnlyTouches(before: Counters, after: Counters, keys: set<string>) {
    forall key :: key !in keys ==> SameAt(before, after, key)
  }

  /** What recording a login failure does to its two counters and to no other. */
  lemma BothCounted(c: Counters, policy: FailurePolicy, first: Limit, second: Limit, x: Contact, y: Contact)
    requires first.key != second.key
    ensures var after := AnsweredTwice(c, policy, first, second, true, x, y).1;
      && OnlyTouches(c, after, {first.key, second.key})
      && Counted(c, after, first.key, first.seconds, x.at, x.up || x.applied)
      && Counted(c, after, second.key, second.seconds, y.at, (x.up || policy.Open?) && (y.up || y.applied))
  {
  }

  /** And what it answers, in terms of the counters it leaves. */
  lemma BothJudged(c: Counters, policy: FailurePolicy, first: Limit, second: Limit, x: Contact, y: Contact)
    requires first.key != second.key
    ensures var (r, after) := AnsweredTwice(c, policy, first, second, true, x, y);
      JudgedTogether(Judged(after, policy, first.key, first.threshold, first.seconds, x.up, x.at, x.at),
                     Judged(after, policy, second.key, second.threshold, second.seconds, y.up, y.at, y.at), r)
  {
    var middle := CountersAfter(c, first, true, x);
    var after := AnsweredTwice(c, policy, first, second, true, x, y).1;
    assert SameAt(middle, after, first.key);
  }

  // ---------- the limiter ----------

  class RedisAuthenticationRateLimiter {
    var counters: Counters
    const settings: Settings
    const hash: string -> string

    constructor (settings: Settings, hash: string -> string)
      ensures this.settings == settings && this.hash == hash && counters == map[]
    {
      this.settings := settings;
      this.hash := hash;
      counters := map[];
    }

    /** The Lua script, executed atomically by Redis. */
    method IncrementWindow(key: string, seconds: nat, now: Instant) returns (count: nat, ttl: int)
      modifies this`counters
      ensures counters == Incremented(old(counters), key, seconds, now)
      ensures seconds > 0 ==> count == CountAt(counters, key, now)
      ensures ttl == TtlAt(counters, key, now)
    {
      if Live(counters, key, now) {
        counters := counters[key := counters[key].(count := counters[key].count + 1)];
      } else {
        counters := counters[key := Counter(1, now + Milliseconds(seconds))];
      }
      count := counters[key].count;
      ttl := TtlAt(counters, key, now);
    }

    method Decision(limit: Limit, increment: bool, contact: Contact) returns (r: Answer)
      requires limit.seconds > 0
      modifies this`counters
      ensures r == Answered(old(counters), settings.failurePolicy, limit, increment, contact)
      ensures counters == CountersAfter(old(counters), limit, increment, contact)
    {
      if !contact.up {
        if contact.applied && increment {
          var _, _ := IncrementWindow(limit.key, limit.seconds, contact.at);
        }
        return if settings.failurePolicy.Open? then Success(RateLimitDecision(true, 0)) else Failure(Unavailable);
      }
      var count, ttl;
      if increment {
        count, ttl := IncrementWindow(limit.key, limit.seconds, contact.at);
      } else {
        count := CountAt(counters, limit.key, contact.at);
        ttl := TtlAt(counters, limit.key, contact.ttlAt);
      }
      if count < limit.threshold { return Success(RateLimitDecision(true, 0)); }
      var retryAfter := if ttl > 0 then ttl else limit.seconds;
      r := Success(RateLimitDecision(false, retryAfter));
    }

    method CombinedDecision(first: Limit, second: Limit, increment: bool, x: Contact, y: Contact) returns (r: Answer)
      requires first.seconds > 0 && second.seconds > 0
      modifies this`counters
      ensures (r, counters) == AnsweredTwice(old(counters), settings.failurePolicy, first, second, increment, x, y)
    {
      var a := Decision(first, increment, x);
      if a.Failure? { return a; }
      var b := Decision(second, increment, y);
      if b.Failure? { return b; }
      if a.value.allowed && b.value.allowed { return Success(RateLimitDecision(true, 0)); }
      var longer := if a.value.retryAfter >= b.value.retryAfter then a.value.retryAfter else b.value.retryAfter;
      r := Success(RateLimitDecision(false, longer));
    }

    method CheckLoginAllowed(identifier: string, client: Option<string>, x: Contact, y: Contact) returns (r: Answer)
      requires settings.Valid()
      modifies this`counters
      ensures counters == old(counters)
      ensures r == AnsweredTwice(counters, settings.failurePolicy, IdentifierLimit(settings, hash, identifier), LoginClientLimit(settings, hash, client), false, x, y).0
      ensures JudgedTogether(
        Judged(counters, settings.failurePolicy, IdentifierKey(hash, identifier), settings.loginIdentifierThreshold, settings.loginWindow, x.up, x.at, x.ttlAt),
        Judged(counters, settings.failurePolicy, LoginClientKey(hash, client), settings.loginClientThreshold, settings.loginWindow, y.up, y.at, y.ttlAt),
        r)
    {
      r := CombinedDecision(IdentifierLimit(settings, hash, identifier), LoginClientLimit(settings, hash, client), false, x, y);
    }

    method RecordLoginFailure(identifier: string, client: Option<string>, x: Contact, y: Contact) returns (r: Answer)
      requires settings.Valid()
      modifies this`counters
      ensures (r, counters) ==
        AnsweredTwice(old(counters), settings.failurePolicy, IdentifierLimit(settings, hash, identifier), LoginClientLimit(settings, hash, client), true, x, y)
      ensures OnlyTouches(old(counters), counters, {IdentifierKey(hash, identifier), LoginClientKey(hash, client)})
      ensures Counted(old(counters), counters, IdentifierKey(hash, identifier), settings.loginWindow, x.at, x.up || x.applied)
      ensures Counted(old(counters), counters, LoginClientKey(hash, client), settings.loginWindow, y.at,
                      (x.up || settings.failurePolicy.Open?) && (y.up || y.applied))
      ensures JudgedTogether(
        Judged(counters, settings.failurePolicy, IdentifierKey(hash, identifier), settings.loginIdentifierThreshold, settings.loginWindow, x.up, x.at, x.at),
        Judged(counters, settings.failurePolicy, LoginClientKey(hash, client), settings.loginClientThreshold, settings.loginWindow, y.up, y.at, y.at),
        r)
    {
      CounterFamiliesAreDisjoint(hash, identifier, client, client);
      BothCounted(counters, settings.failurePolicy, IdentifierLimit(settings, hash, identifier), LoginClientLimit(settings, hash, client), x, y);
      BothJudged(counters, settings.failurePolicy, IdentifierLimit(settings, hash, identifier), LoginClientLimit(settings, hash, client), x, y);
      r := CombinedDecision(IdentifierLimit(settings, hash, identifier), LoginClientLimit(settings, hash, client), true, x, y);
    }

    method RecordLoginSuccess(identifier: string, client: Option<string>, up: bool, applied: bool) returns (r: Result<(), Unavailable>)
      modifies this`counters
      ensures counters == if up || applied then old(counters) - {IdentifierKey(hash, identifier), LoginClientKey(hash, client)} else old(counters)
      ensures OnlyTouches(old(counters), counters, {IdentifierKey(hash, identifier), LoginClientKey(hash, client)})
      ensures r.Failure? <==> !up && settings.failurePolicy.Closed?
    {
      r := Delete({IdentifierKey(hash, identifier), LoginClientKey(hash, client)}, up, applied);
    }

    method CheckRefreshAllowed(client: Option<string>, contact: Contact) returns (r: Answer)
      requires settings.Valid()
      modifies this`counters
      ensures counters == old(counters)
      ensures r == Answered(counters, settings.failurePolicy, RefreshLimit(settings, hash, client), false, contact)
      ensures r == Judged(counters, settings.failurePolicy, RefreshClientKey(hash, client), settings.refreshClientThreshold, settings.refreshWindow,
                          contact.up, contact.at, contact.ttlAt)
    {
      r := Decision(RefreshLimit(settings, hash, client), false, contact);
    }

    method RecordRefreshFailure(client: Option<string>, contact: Contact) returns (r: Answer)
      requires settings.Valid()
      modifies this`counters
      ensures r == Answered(old(counters), settings.failurePolicy, RefreshLimit(settings, hash, client), true, contact)
      ensures counters == CountersAfter(old(counters), RefreshLimit(settings, hash, client), true, contact)
      ensures OnlyTouches(old(counters), counters, {RefreshClientKey(hash, client)})
      ensures Counted(old(counters), counters, RefreshClientKey(hash, client), settings.refreshWindow, contact.at, contact.up || contact.applied)
      ensures r == Judged(counters, settings.failurePolicy, RefreshClientKey(hash, client), settings.refreshClientThreshold, settings.refreshWindow,
                          contact.up, contact.at, contact.at)
    {
      r := Decision(RefreshLimit(settings, hash, client), true, contact);
    }

    method RecordRefreshSuccess(client: Option<string>, up: bool, applied: bool) returns (r: Result<(), Unavailable>)
      modifies this`counters
      ensures counters == if up || applied then old(counters) - {RefreshClientKey(hash, client)} else old(counters)
      ensures r.Failure? <==> !up && settings.failurePolicy.Closed?
    {
      r := Delete({RefreshClientKey(hash, client)}, up, applied);
    }

    method Delete(keys: set<string>, up: bool, applied: bool) returns (r: Result<(), Unavailable>)
      modifies this`counters
      ensures counters == if up || applied then old(counters) - keys else old(counters)
      ensures r.Failure? <==> !up && settings.failurePolicy.Closed?
    {
      if up || applied { counters := counters - keys; }
      if up { return Success(()); }
      r := if settings.failurePolicy.Open? then Success(()) else Failure(Unavailable);
    }
  }
}
