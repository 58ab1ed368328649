/** Membership lifecycle, the last-active-owner rule and who may administer whom
    (domain/identity/entities.py, domain/identity/policies.py,
    application/authorization/policy.py). */
module Memberships {
  import opened Common

  datatype Role = Owner | Admin | Operator | Reviewer | Auditor

  datatype Status = Invited | Active | Suspended | Removed

  datatype LifecycleError = InvalidTransition | AlreadyRemoved | InvalidTimestamp

  datatype Membership = Membership(
    id: Uuid, user: Uuid, org: Uuid, role: Role, status: Status, createdAt: Instant, updatedAt: Instant,
    invitedAt: Option<Instant>, joinedAt: Option<Instant>, suspendedAt: Option<Instant>, removedAt: Option<Instant>)
  {
    /** _validate_lifecycle_state, and the timestamp order checked at construction. */
    predicate Valid() {
      && updatedAt >= createdAt
      && match status
         case Invited => invitedAt.Some? && joinedAt.None? && suspendedAt.None? && removedAt.None?
         case Active => joinedAt.Some? && suspendedAt.None? && removedAt.None?
         case Suspended => joinedAt.Some? && suspendedAt.Some? && removedAt.None?
         case Removed => removedAt.Some?
    }

    predicate ActiveOwner() {
      role == Owner && status == Active
    }

    function Refuse(): LifecycleError {
      if status == Removed then AlreadyRemoved else InvalidTransition
    }

    function Activate(now: Instant): Result<Membership, LifecycleError> {
      if status == Active then Success(this)
      else if status != Invited then Failure(Refuse())
      else if now < createdAt then Failure(InvalidTimestamp)
      else Success(Membership(id, user, org, role, Active, createdAt, now, invitedAt, Some(now), None, None))
    }

    function Suspend(now: Instant): Result<Membership, LifecycleError> {
      if status != Active then Failure(Refuse())
      else if now < createdAt then Failure(InvalidTimestamp)
      else Success(Membership(id, user, org, role, Suspended, createdAt, now, invitedAt, joinedAt, Some(now), None))
    }

    function Reactivate(now: Instant): Result<Membership, LifecycleError> {
      if status == Active then Success(this)
      else if status != Suspended then Failure(Refuse())
      else if now < createdAt then Failure(InvalidTimestamp)
      else Success(Membership(id, user, org, role, Active, createdAt, now, invitedAt, joinedAt, None, None))
    }

    function Remove(now: Instant): Result<Membership, LifecycleError> {
      if status == Removed then Success(this)
      else if now < createdAt then Failure(InvalidTimestamp)
      else Success(Membership(id, user, org, role, Removed, createdAt, now, invitedAt, joinedAt, suspendedAt, Some(now)))
    }

    function ChangeRole(newRole: Role, now: Instant): Result<Membership, LifecycleError> {
      if status == Removed then Failure(AlreadyRemoved)
      else if status == Suspended then Failure(InvalidTransition)
      else if newRole == role then Success(this)
      else if now < createdAt then Failure(InvalidTimestamp)
      else Success(this.(role := newRole, updatedAt := now))
    }
  }

  datatype Change = ToActive | ToSuspended | BackToActive | ToRemoved | ToRole(role: Role)

  function Transition(m: Membership, change: Change, now: Instant): Result<Membership, LifecycleError> {
    match change
    case ToActive => m.Activate(now)
    case ToSuspended => m.Suspend(now)
    case BackToActive => m.Reactivate(now)
    case ToRemoved => m.Remove(now)
    case ToRole(role) => m.ChangeRole(role, now)
  }

  /** Every accepted transition yields a membership that construction accepts, keeps who and
      where it is, never rewrites when it was joined, and leaves Removed for nothing. */
  lemma TransitionsAreValid(m: Membership, change: Change, now: Instant)
    requires m.Valid() && Transition(m, change, now).Success?
    ensures var n := Transition(m, change, now).value;
      && n.Valid()
      && n.id == m.id && n.user == m.user && n.org == m.org && n.createdAt == m.createdAt && n.invitedAt == m.invitedAt
      && (m.joinedAt.Some? ==> n.joinedAt == m.joinedAt)
      && (m.status == Removed ==> n == m && change == ToRemoved)
      && (n.role != m.role ==> change == ToRole(n.role) && n.status == m.status)
  {
  }

  /** The statuses a change may start from. */
  predicate StartsFrom(change: Change, status: Status) {
    match change
    case ToActive => status == Invited || status == Active
    case ToSuspended => status == Active
    case BackToActive => status == Suspended || status == Active
    case ToRemoved => true
    case ToRole(_) => status == Invited || status == Active
  }

  /** The change asks for what is already so; suspending an active member never does. */
  predicate AlreadySo(change: Change, m: Membership) {
    match change
    case ToActive => m.status == Active
    case ToSuspended => false
    case BackToActive => m.status == Active
    case ToRemoved => m.status == Removed
    case ToRole(role) => m.role == role
  }

  /** Exact conditions: a change is accepted from the right status and not before the
      membership's creation, and then it takes effect, at that moment, and nothing else does. */
  lemma TransitionTakesEffect(m: Membership, change: Change, now: Instant)
    requires m.Valid()
    ensures var r := Transition(m, change, now);
      && (r.Success? <==> StartsFrom(change, m.status) && (AlreadySo(change, m) || now >= m.createdAt))
      && (r.Failure? ==>
            r.error == if StartsFrom(change, m.status) then InvalidTimestamp
                       else if m.status == Removed then AlreadyRemoved else InvalidTransition)
      && (r.Success? && AlreadySo(change, m) ==> r.value == m)
      && (r.Success? && !AlreadySo(change, m) ==>
            var n := r.value;
            match change
            case ToActive => n == m.(status := Active, joinedAt := Some(now), updatedAt := now)
            case ToSuspended => n == m.(status := Status.Suspended, suspendedAt := Some(now), updatedAt := now)
            case BackToActive => n == m.(status := Active, suspendedAt := None, updatedAt := now)
            case ToRemoved => n == m.(status := Removed, removedAt := Some(now), updatedAt := now)
            case ToRole(role) => n == m.(role := role, updatedAt := now))
  {
  }

  /** Suspending and reactivating restores everything but the update time. */
  lemma ReactivateUndoesSuspend(m: Membership, t: Instant, u: Instant)
    requires m.Valid() && m.Suspend(t).Success? && u >= m.createdAt
    ensures m.Suspend(t).value.Reactivate(u) == Success(m.(updatedAt := u))
  {
  }

  // ---------- the last-active-owner rule ----------

  datatype Denial = TenantBoundary | AdministrationDenied | LastActiveOwner

  /** Ids are counted, so a membership listed twice counts once. */
  function ActiveOwnerIds(target: Membership, memberships: seq<Membership>): set<Uuid> {
    {target.id} + set m | m in memberships && m.org == target.org && m.ActiveOwner() :: m.id
  }

  /** ensure_not_last_active_owner, for the three mutations it covers. */
  function EnsureNotLastActiveOwner(target: Membership, memberships: seq<Membership>): Option<Denial> {
    if !target.ActiveOwner() then None
    else if |ActiveOwnerIds(target, memberships)| <= 1 then Some(LastActiveOwner)
    else None
  }

  datatype Mutation = Update | SuspendMember | RemoveMember | ChangeMemberRole | InviteMember

  function OwnerRule(target: Membership, mutation: Mutation, memberships: seq<Membership>): Option<Denial> {
    if !target.ActiveOwner() || mutation.Update? || mutation.InviteMember? then None
    else EnsureNotLastActiveOwner(target, memberships)
  }

  function EnsureTargetManageable(actor: Membership, target: Membership, mutation: Mutation, memberships: seq<Membership>): Option<Denial> {
    if actor.org != target.org then Some(TenantBoundary)
    else
      match actor.role
      case Owner => OwnerRule(target, mutation, memberships)
      case Admin => if target.role == Owner then Some(AdministrationDenied) else None
      case _ => Some(AdministrationDenied)
  }

  function EnsureSelfRoleChangeAllowed(actor: Membership, target: Membership, newRole: Role): Option<Denial> {
    if actor.id == target.id && newRole != target.role && actor.role != Owner then Some(AdministrationDenied) else None
  }

  function EnsureRoleAssignmentAllowed(actor: Membership, target: Membership, newRole: Role, memberships: seq<Membership>): Option<Denial> {
    if actor.org != target.org then Some(TenantBoundary)
    else if EnsureSelfRoleChangeAllowed(actor, target, newRole).Some? then Some(AdministrationDenied)
    else if target.role == newRole then None
    else
      match actor.role
      case Owner => if target.role == Owner then EnsureNotLastActiveOwner(target, memberships) else None
      case Admin => if newRole == Owner || target.role == Owner then Some(AdministrationDenied) else None
      case _ => Some(AdministrationDenied)
  }

  // ---------- runs over a roster ----------

  type Roster = map<Uuid, Membership>

  ghost predicate ValidRoster(r: Roster) {
    forall id :: id in r ==> r[id].id == id && r[id].Valid()
  }

  /** The memberships handed to the policy are current rows; together, all of them. */
  ghost predicate Genuine(memberships: seq<Membership>, r: Roster) {
    forall m :: m in memberships ==> m.id in r && r[m.id] == m
  }

  ghost predicate Full(memberships: seq<Membership>, r: Roster) {
    Genuine(memberships, r) && forall id :: id in r ==> r[id] in memberships
  }

  ghost predicate OnlyActiveOwner(r: Roster, target: Uuid)
    requires target in r
  {
    r[target].ActiveOwner()
    && forall id :: id in r && id != target && r[id].org == r[target].org ==> !r[id].ActiveOwner()
  }

  lemma AtMostOne<T>(s: set<T>, x: T)
    requires x in s
    ensures |s| <= 1 <==> forall y :: y in s ==> y == x
  {
    assert |s| == |s - {x}| + 1;
    if |s| <= 1 {
      assert s - {x} == {};
      assert forall y :: y in s ==> y == x || y in s - {x};
    }
    if forall y :: y in s ==> y == x { assert s == {x}; }
  }

  /** On the full roster the rule rejects exactly the only active owner of its organization. */
  lemma RuleRejectsExactlyTheLast(r: Roster, target: Uuid, memberships: seq<Membership>)
    requires ValidRoster(r) && target in r && Full(memberships, r)
    ensures EnsureNotLastActiveOwner(r[target], memberships) == Some(LastActiveOwner) <==> OnlyActiveOwner(r, target)
  {
    var ids := ActiveOwnerIds(r[target], memberships);
    AtMostOne(ids, target);
    if r[target].ActiveOwner() {
      forall id | id in r && id != target && r[id].org == r[target].org && r[id].ActiveOwner() ensures id in ids {
        assert r[id] in memberships;
      }
    }
  }

  datatype Operation = Operation(actor: Uuid, target: Uuid, change: Change, now: Instant, memberships: seq<Membership>)

  function Guard(op: Operation, actor: Membership, target: Membership): Option<Denial> {
    match op.change
    case ToRole(role) => EnsureRoleAssignmentAllowed(actor, target, role, op.memberships)
    case ToSuspended => EnsureTargetManageable(actor, target, SuspendMember, op.memberships)
    case ToRemoved => EnsureTargetManageable(actor, target, RemoveMember, op.memberships)
    case ToActive => EnsureTargetManageable(actor, target, Update, op.memberships)
    case BackToActive => EnsureTargetManageable(actor, target, Update, op.memberships)
  }

  /** Who may do what, on the full roster: owners everything but to leave their organization
      without an active owner, admins everything that concerns no owner, nobody across
      organizations, and only owners their own role. */
  ghost predicate Permitted(r: Roster, actor: Membership, target: Membership, change: Change)
    requires target.id in r
  {
    var ownersRemain := !(target.role == Owner && OnlyActiveOwner(r, target.id));
    && actor.org == target.org
    && match change
       case ToRole(role) =>
         || (role == target.role)
         || (actor.role == Owner && ownersRemain)
         || (actor.role == Admin && role != Owner && target.role != Owner && actor.id != target.id)
       case ToSuspended => (actor.role == Owner && ownersRemain) || (actor.role == Admin && target.role != Owner)
       case ToRemoved => (actor.role == Owner && ownersRemain) || (actor.role == Admin && target.role != Owner)
       case ToActive => actor.role == Owner || (actor.role == Admin && target.role != Owner)
       case BackToActive => actor.role == Owner || (actor.role == Admin && target.role != Owner)
  }

  /** The guards decide exactly so. */
  lemma GuardDecides(r: Roster, op: Operation)
    requires ValidRoster(r) && op.actor in r && op.target in r && Full(op.memberships, r)
    ensures Guard(op, r[op.actor], r[op.target]) == None <==> Permitted(r, r[op.actor], r[op.target], op.change)
  {
    RuleRejectsExactlyTheLast(r, op.target, op.memberships);
  }

  /** A permitted operation from the right status takes effect; any other changes nothing. */
  lemma PermittedTakesEffect(r: Roster, op: Operation)
    requires ValidRoster(r) && op.actor in r && op.target in r && Full(op.memberships, r) && op.now >= r[op.target].createdAt
    ensures var m, n := r[op.target], Perform(r, op)[op.target];
      if Permitted(r, r[op.actor], m, op.change) && StartsFrom(op.change, m.status) then
        match op.change
        case ToActive => n.status == Active
        case ToSuspended => n.status == Status.Suspended
        case BackToActive => n.status == Active
        case ToRemoved => n.status == Removed
        case ToRole(role) => n.role == role && n.status == m.status
      else Perform(r, op) == r
  {
    GuardDecides(r, op);
    TransitionTakesEffect(r[op.target], op.change, op.now);
  }

  /** A guarded operation: denied or refused, it changes nothing. */
  function Perform(r: Roster, op: Operation): Roster {
    if op.actor !in r || op.target !in r then r
    else if Guard(op, r[op.actor], r[op.target]).Some? then r
    else
      match Transition(r[op.target], op.change, op.now)
      case Failure(_) => r
      case Success(m) => r[op.target := m]
  }

  ghost predicate HasActiveOwner(r: Roster, org: Uuid) {
    exists id :: id in r && r[id].org == org && r[id].ActiveOwner()
  }

  lemma AnotherOwner(r: Roster, target: Uuid, memberships: seq<Membership>) returns (other: Uuid)
    requires ValidRoster(r) && target in r && Genuine(memberships, r) && r[target].ActiveOwner()
    requires EnsureNotLastActiveOwner(r[target], memberships) == None
    ensures other != target && other in r && r[other].org == r[target].org && r[other].ActiveOwner()
  {
    AtMostOne(ActiveOwnerIds(r[target], memberships), target);
    other :| other in ActiveOwnerIds(r[target], memberships) && other != target;
  }

  lemma PerformKeepsRoster(r: Roster, op: Operation)
    requires ValidRoster(r)
    ensures ValidRoster(Perform(r, op)) && Perform(r, op).Keys == r.Keys
    ensures forall id :: id in r && id != op.target ==> Perform(r, op)[id] == r[id]
  {
    if op.target in r && Transition(r[op.target], op.change, op.now).Success? {
      TransitionsAreValid(r[op.target], op.change, op.now);
    }
  }

  lemma PerformKeepsActiveOwner(r: Roster, op: Operation, org: Uuid)
    requires ValidRoster(r) && Genuine(op.memberships, r) && HasActiveOwner(r, org)
    ensures HasActiveOwner(Perform(r, op), org)
  {
    PerformKeepsRoster(r, op);
    var id :| id in r && r[id].org == org && r[id].ActiveOwner();
    var after := Perform(r, op);
    if id == op.target && after != r {
      if after[id].ActiveOwner() {
        assert after[id].org == org;
      } else {
        var other := AnotherOwner(r, id, op.memberships);
        assert after[other] == r[other];
      }
    } else {
      assert after[id] == r[id];
    }
  }

  function PerformAll(r: Roster, ops: seq<Operation>): Roster {
    if ops == [] then r else Perform(PerformAll(r, ops[..|ops| - 1]), ops[|ops| - 1])
  }

  /** Every operation was decided on current rows of the roster it changes. */
  ghost predicate Informed(r: Roster, ops: seq<Operation>) {
    forall i :: 0 <= i < |ops| ==> Genuine(ops[i].memberships, PerformAll(r, ops[..i]))
  }

  /** An organization that starts with an active owner always keeps one, whoever acts. */
  lemma {:induction false} ActiveOwnerRemains(r: Roster, ops: seq<Operation>, org: Uuid)
    requires ValidRoster(r) && Informed(r, ops) && HasActiveOwner(r, org)
    ensures ValidRoster(PerformAll(r, ops)) && HasActiveOwner(PerformAll(r, ops), org)
  {
    if ops != [] {
      var init := ops[..|ops| - 1];
      forall i | 0 <= i < |init| ensures Genuine(init[i].memberships, PerformAll(r, init[..i])) {
        assert init[..i] == ops[..i];
      }
      ActiveOwnerRemains(r, init, org);
      var before := PerformAll(r, init);
      PerformKeepsRoster(before, ops[|ops| - 1]);
      PerformKeepsActiveOwner(before, ops[|ops| - 1], org);
    }
  }

  /** The same owner memberships, each unchanged in every field. */
  ghost predicate SameOwners(a: Roster, b: Roster) {
    && a.Keys == b.Keys
    && forall id :: id in a ==> (a[id].role == Owner <==> b[id].role == Owner) && (a[id].role == Owner ==> b[id] == a[id])
  }

  lemma NonOwnerLeavesOwners(r: Roster, op: Operation)
    requires ValidRoster(r) && (op.actor in r ==> r[op.actor].role != Owner)
    ensures SameOwners(r, Perform(r, op))
  {
    PerformKeepsRoster(r, op);
    if op.actor in r && op.target in r && Transition(r[op.target], op.change, op.now).Success? {
      TransitionsAreValid(r[op.target], op.change, op.now);
    }
  }

  /** However many non-owners act, they neither create, demote, suspend nor remove an owner. */
  lemma {:induction false} NonOwnersNeverTouchOwners(r: Roster, ops: seq<Operation>)
    requires ValidRoster(r)
    requires forall i :: 0 <= i < |ops| && ops[i].actor in r ==> r[ops[i].actor].role != Owner
    ensures ValidRoster(PerformAll(r, ops)) && SameOwners(r, PerformAll(r, ops))
  {
    if ops != [] {
      NonOwnersNeverTouchOwners(r, ops[..|ops| - 1]);
      var before := PerformAll(r, ops[..|ops| - 1]);
      PerformKeepsRoster(before, ops[|ops| - 1]);
      NonOwnerLeavesOwners(before, ops[|ops| - 1]);
    }
  }
}
