/** Whatever others do at the limiter, an attempt is judged by its own identifier and client
    (infrastructure/security/rate_limit.py). */
module RateLimitIsolation {
  import opened Common
  import opened RateLimiter

  /** The calls that move counters. */
  datatype Call =
    | LoginFails(identifier: string, client: Option<string>, x: Contact, y: Contact)
    | LoginSucceeds(identifier: string, client: Option<string>, up: bool, applied: bool)
    | RefreshFails(client: Option<string>, contact: Contact)
    | RefreshSucceeds(client: Option<string>, up: bool, applied: bool)

  /** The counters after one call, as the limiter's methods leave them. */
  function AfterCall(settings: Settings, hash: string -> string, c: Counters, call: Call): Counters {
    match call
    case LoginFails(identifier, client, x, y) =>
      AnsweredTwice(c, settings.failurePolicy, IdentifierLimit(settings, hash, identifier), LoginClientLimit(settings, hash, client), true, x, y).1
    case LoginSucceeds(identifier, client, up, applied) =>
      if up || applied then c - {IdentifierKey(hash, identifier), LoginClientKey(hash, client)} else c
    case RefreshFails(client, contact) => CountersAfter(c, RefreshLimit(settings, hash, client), true, contact)
    case RefreshSucceeds(client, up, applied) => if up || applied then c - {RefreshClientKey(hash, client)} else c
  }

  function AfterCalls(settings: Settings, hash: string -> string, c: Counters, calls: seq<Call>): Counters {
    if calls == [] then c else AfterCall(settings, hash, AfterCalls(settings, hash, c, calls[..|calls| - 1]), calls[|calls| - 1])
  }

  /** SHA-256 in hexadecimal, as far as it matters here. */
  ghost predicate HexDigest(hash: string -> string) {
    (forall s, t :: hash(s) == hash(t) ==> s == t) && forall s :: |hash(s)| == 64
  }

  /** A login of somebody else from somewhere else, or any refresh. */
  ghost predicate NotThisLogin(call: Call, identifier: string, client: Option<string>) {
    call.LoginFails? || call.LoginSucceeds? ==> call.identifier != identifier && !SameClient(call.client, client)
  }

  ghost predicate NotThisRefresh(call: Call, client: Option<string>) {
    call.RefreshFails? || call.RefreshSucceeds? ==> !SameClient(call.client, client)
  }

  lemma CallLeavesLogin(settings: Settings, hash: string -> string, c: Counters, call: Call, identifier: string, client: Option<string>)
    requires HexDigest(hash) && NotThisLogin(call, identifier, client)
    ensures SameAt(c, AfterCall(settings, hash, c, call), IdentifierKey(hash, identifier))
    ensures SameAt(c, AfterCall(settings, hash, c, call), LoginClientKey(hash, client))
  {
    CallTouches(settings, hash, c, call);
    CounterFamiliesAreDisjoint(hash, identifier, call.client, call.client);
    CounterFamiliesAreDisjoint(hash, identifier, client, call.client);
    if call.LoginFails? || call.LoginSucceeds? {
      IdentifierKeysDiffer(hash, call.identifier, identifier);
      ClientKeysDiffer(hash, call.client, client);
      CounterFamiliesAreDisjoint(hash, call.identifier, client, client);
    }
  }

  function KeysOf(hash: string -> string, call: Call): set<string> {
    if call.LoginFails? || call.LoginSucceeds? then {IdentifierKey(hash, call.identifier), LoginClientKey(hash, call.client)}
    else {RefreshClientKey(hash, call.client)}
  }

  lemma CallTouches(settings: Settings, hash: string -> string, c: Counters, call: Call)
    ensures OnlyTouches(c, AfterCall(settings, hash, c, call), KeysOf(hash, call))
  {
    if call.LoginFails? {
      CounterFamiliesAreDisjoint(hash, call.identifier, call.client, call.client);
      BothCounted(c, settings.failurePolicy, IdentifierLimit(settings, hash, call.identifier), LoginClientLimit(settings, hash, call.client), call.x, call.y);
    }
  }

  lemma {:induction false} StrangersLeaveCounters(settings: Settings, hash: string -> string, c: Counters, calls: seq<Call>,
                                                  identifier: string, client: Option<string>)
    requires HexDigest(hash) && forall i :: 0 <= i < |calls| ==> NotThisLogin(calls[i], identifier, client)
    ensures var after := AfterCalls(settings, hash, c, calls);
      SameAt(c, after, IdentifierKey(hash, identifier)) && SameAt(c, after, LoginClientKey(hash, client))
  {
    if calls != [] {
      var init := calls[..|calls| - 1];
      StrangersLeaveCounters(settings, hash, c, init, identifier, client);
      CallLeavesLogin(settings, hash, AfterCalls(settings, hash, c, init), calls[|calls| - 1], identifier, client);
    }
  }

  lemma SameCountersSameAnswer(c: Counters, after: Counters, policy: FailurePolicy, first: Limit, second: Limit, x: Contact, y: Contact)
    requires SameAt(c, after, first.key) && SameAt(c, after, second.key)
    ensures AnsweredTwice(after, policy, first, second, false, x, y).0 == AnsweredTwice(c, policy, first, second, false, x, y).0
  {
  }

  /** However many others fail or succeed, a login is judged as if they had not. */
  lemma StrangersLeaveLogin(settings: Settings, hash: string -> string, c: Counters, calls: seq<Call>,
                            identifier: string, client: Option<string>, x: Contact, y: Contact)
    requires HexDigest(hash) && forall i :: 0 <= i < |calls| ==> NotThisLogin(calls[i], identifier, client)
    ensures var after := AfterCalls(settings, hash, c, calls);
      var first, second := IdentifierLimit(settings, hash, identifier), LoginClientLimit(settings, hash, client);
      AnsweredTwice(after, settings.failurePolicy, first, second, false, x, y).0
      == AnsweredTwice(c, settings.failurePolicy, first, second, false, x, y).0
  {
    StrangersLeaveCounters(settings, hash, c, calls, identifier, client);
    SameCountersSameAnswer(c, AfterCalls(settings, hash, c, calls), settings.failurePolicy,
                           IdentifierLimit(settings, hash, identifier), LoginClientLimit(settings, hash, client), x, y);
  }

  lemma CallLeavesRefresh(settings: Settings, hash: string -> string, c: Counters, call: Call, client: Option<string>)
    requires HexDigest(hash) && NotThisRefresh(call, client)
    ensures SameAt(c, AfterCall(settings, hash, c, call), RefreshClientKey(hash, client))
  {
    CallTouches(settings, hash, c, call);
    if call.LoginFails? || call.LoginSucceeds? {
      CounterFamiliesAreDisjoint(hash, call.identifier, client, client);
      CounterFamiliesAreDisjoint(hash, call.identifier, call.client, client);
    } else {
      ClientKeysDiffer(hash, call.client, client);
    }
  }

  /** The same for a refresh; logins never touch its counter. */
  lemma {:induction false} StrangersLeaveRefresh(settings: Settings, hash: string -> string, c: Counters, calls: seq<Call>,
                                                 client: Option<string>, contact: Contact)
    requires HexDigest(hash) && forall i :: 0 <= i < |calls| ==> NotThisRefresh(calls[i], client)
    ensures var after := AfterCalls(settings, hash, c, calls);
      && SameAt(c, after, RefreshClientKey(hash, client))
      && Answered(after, settings.failurePolicy, RefreshLimit(settings, hash, client), false, contact)
         == Answered(c, settings.failurePolicy, RefreshLimit(settings, hash, client), false, contact)
  {
    if calls != [] {
      var init := calls[..|calls| - 1];
      StrangersLeaveRefresh(settings, hash, c, init, client, contact);
      CallLeavesRefresh(settings, hash, AfterCalls(settings, hash, c, init), calls[|calls| - 1], client);
    }
  }

  // ---------- one's own failures ----------

  /** The call counts a failure for the identifier while its window is open. */
  predicate FailsFor(call: Call, identifier: string, from: Instant, until: Instant) {
    call.LoginFails? && call.identifier == identifier && call.x.up && from <= call.x.at < until
  }

  function OwnFailures(calls: seq<Call>, identifier: string): nat {
    if calls == [] then 0
    else OwnFailures(calls[..|calls| - 1], identifier)
         + (if calls[|calls| - 1].LoginFails? && calls[|calls| - 1].identifier == identifier then 1 else 0)
  }

  /** From wherever they come: every call is a failure of this identifier inside the window, or
      a login of somebody else, or a refresh. */
  ghost predicate FailuresIn(calls: seq<Call>, identifier: string, from: Instant, until: Instant) {
    forall i :: 0 <= i < |calls| ==>
      FailsFor(calls[i], identifier, from, until)
      || calls[i].RefreshFails? || calls[i].RefreshSucceeds? || calls[i].identifier != identifier
  }

  lemma CallCounts(settings: Settings, hash: string -> string, c: Counters, call: Call, identifier: string, from: Instant, n: nat)
    requires HexDigest(hash) && settings.loginWindow > 0
    requires FailuresIn([call], identifier, from, from + Milliseconds(settings.loginWindow))
    requires var key := IdentifierKey(hash, identifier);
      if n == 0 then key !in c else key in c && c[key].count == n && c[key].expires >= from + Milliseconds(settings.loginWindow)
    ensures var key, after := IdentifierKey(hash, identifier), AfterCall(settings, hash, c, call);
      var m := n + OwnFailures([call], identifier);
      if m == 0 then key !in after else key in after && after[key].count == m && after[key].expires >= from + Milliseconds(settings.loginWindow)
  {
    assert [call][0] == call && [call][..0] == [];
    CounterFamiliesAreDisjoint(hash, identifier, call.client, call.client);
    if call.LoginFails? || call.LoginSucceeds? { IdentifierKeysDiffer(hash, call.identifier, identifier); }
  }

  /** An identifier with no open window is locked by as many failures within one window's
      length as its threshold, whatever clients they come from and whatever others do. */
  lemma {:induction false} OwnFailuresAreCounted(settings: Settings, hash: string -> string, c: Counters, calls: seq<Call>, identifier: string, from: Instant)
    requires HexDigest(hash) && settings.loginWindow > 0 && IdentifierKey(hash, identifier) !in c
    requires FailuresIn(calls, identifier, from, from + Milliseconds(settings.loginWindow))
    ensures var key, after, n := IdentifierKey(hash, identifier), AfterCalls(settings, hash, c, calls), OwnFailures(calls, identifier);
      if n == 0 then key !in after
      else key in after && after[key].count == n && after[key].expires >= from + Milliseconds(settings.loginWindow)
  {
    if calls != [] {
      var init, last := calls[..|calls| - 1], calls[|calls| - 1];
      OwnFailuresAreCounted(settings, hash, c, init, identifier, from);
      assert [last][0] == last && [last][..0] == [];
      CallCounts(settings, hash, AfterCalls(settings, hash, c, init), last, identifier, from, OwnFailures(init, identifier));
    }
  }

  /** ... so a later check from any client is refused from the threshold on, and not before
      on this counter's account. */
  lemma OwnFailuresLock(settings: Settings, hash: string -> string, c: Counters, calls: seq<Call>, identifier: string, from: Instant,
                        client: Option<string>, x: Contact, y: Contact)
    requires HexDigest(hash) && settings.Valid() && IdentifierKey(hash, identifier) !in c
    requires FailuresIn(calls, identifier, from, from + Milliseconds(settings.loginWindow))
    requires x.up && y.up && x.at < from + Milliseconds(settings.loginWindow)
    ensures var after := AfterCalls(settings, hash, c, calls);
      var r := AnsweredTwice(after, settings.failurePolicy, IdentifierLimit(settings, hash, identifier), LoginClientLimit(settings, hash, client), false, x, y).0;
      && r.Success?
      && (OwnFailures(calls, identifier) >= settings.loginIdentifierThreshold ==> !r.value.allowed)
      && (OwnFailures(calls, identifier) < settings.loginIdentifierThreshold ==>
            (r.value.allowed <==> CountAt(after, LoginClientKey(hash, client), y.at) < settings.loginClientThreshold))
  {
    OwnFailuresAreCounted(settings, hash, c, calls, identifier, from);
  }
}
