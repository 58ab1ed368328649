/** The lock-versioned case aggregate, its store and its service (domain/cases.py,
    infrastructure/cases.py, application/cases.py). */
module Cases {
  import opened Common

  datatype CaseStatus = Open | Closed | Archived

  datatype Priority = Low | Normal | High | Urgent

  datatype CaseError = RequiredText | TextTooLong | ArchivedRejectsMutation | ArchivedCannotReopen

  datatype Case = Case(
    id: Uuid, org: Uuid, title: string, summary: Option<string>, status: CaseStatus, priority: Priority,
    externalReference: Option<string>, createdAt: Instant, createdBy: Uuid, updatedAt: Instant, updatedBy: Uuid,
    closedAt: Option<Instant>, closedBy: Option<Uuid>, archivedAt: Option<Instant>, archivedBy: Option<Uuid>, lockVersion: nat)
  {
    /** Open cases carry no closed metadata, closed cases both fields; archived metadata is
        present exactly on archived cases. */
    predicate MetadataAgrees() {
      && (status == Open ==> closedAt.None? && closedBy.None?)
      && (status == Closed ==> closedAt.Some? && closedBy.Some?)
      && (closedAt.Some? <==> closedBy.Some?)
      && (archivedAt.Some? <==> status == Archived) && (archivedBy.Some? <==> status == Archived)
      && lockVersion > 0
    }

    function Update(text: TextRules, title': Option<string>, summary': Option<string>, priority': Option<Priority>,
                    reference': Option<string>, actor: Uuid, now: Instant): Result<Case, CaseError>
    {
      if status == Archived then Failure(ArchivedRejectsMutation)
      else
        match text.Required(if title'.Some? then title'.value else title, 255)
        case Failure(e) => Failure(e)
        case Success(newTitle) =>
          match text.Optional(summary', 4000)
          case Failure(e) => Failure(e)
          case Success(newSummary) =>
            match text.Optional(reference', 255)
            case Failure(e) => Failure(e)
            case Success(newReference) =>
              Success(this.(title := newTitle, summary := newSummary, priority := if priority'.Some? then priority'.value else priority,
                            externalReference := newReference, updatedAt := now, updatedBy := actor, lockVersion := lockVersion + 1))
    }

    function Close(actor: Uuid, now: Instant): Result<Case, CaseError> {
      if status == Archived then Failure(ArchivedRejectsMutation)
      else Success(this.(status := Closed, closedAt := Some(now), closedBy := Some(actor), updatedAt := now, updatedBy := actor, lockVersion := lockVersion + 1))
    }

    function Reopen(actor: Uuid, now: Instant): Result<Case, CaseError> {
      if status == Archived then Failure(ArchivedCannotReopen)
      else Success(this.(status := Open, closedAt := None, closedBy := None, updatedAt := now, updatedBy := actor, lockVersion := lockVersion + 1))
    }

    function Archive(actor: Uuid, now: Instant): Result<Case, CaseError> {
      Success(this.(status := Archived, archivedAt := Some(now), archivedBy := Some(actor), updatedAt := now, updatedBy := actor, lockVersion := lockVersion + 1))
    }
  }

  /** Whitespace normalization of free text is a parameter; the bounds are not. */
  datatype TextRules = TextRules(normalize: string -> string) {
    function Required(value: string, max: nat): Result<string, CaseError> {
      if normalize(value) == "" then Failure(RequiredText)
      else if |normalize(value)| > max then Failure(TextTooLong)
      else Success(normalize(value))
    }

    function Optional(value: Option<string>, max: nat): Result<Option<string>, CaseError> {
      if value.None? || normalize(value.value) == "" then Success(None)
      else if |normalize(value.value)| > max then Failure(TextTooLong)
      else Success(Some(normalize(value.value)))
    }
  }

  datatype Action =
    | UpdateCase(title: Option<string>, summary: Option<string>, priority: Option<Priority>, reference: Option<string>)
    | CloseCase
    | ReopenCase
    | ArchiveCase

  datatype Permission = CaseWrite | CaseArchive

  datatype Tenant = Tenant(org: Uuid, user: Uuid, permissions: set<Permission>)

  /** The version a command carries is the one its sender last saw. */
  datatype Command = Command(caseId: Uuid, tenant: Tenant, lockVersion: nat, action: Action, now: Instant)

  datatype ServiceError = PermissionDenied | CaseNotFound | ConcurrencyConflict | Refused(error: CaseError)

  /** Rows by organization and case id. */
  type CaseTable = map<(Uuid, Uuid), Case>

  function RowOf(cmd: Command): (Uuid, Uuid) {
    (cmd.tenant.org, cmd.caseId)
  }

  function Apply(text: TextRules, c: Case, cmd: Command): Result<Case, CaseError> {
    match cmd.action
    case UpdateCase(t, s, p, r) => c.Update(text, t, s, p, r, cmd.tenant.user, cmd.now)
    case CloseCase => c.Close(cmd.tenant.user, cmd.now)
    case ReopenCase => c.Reopen(cmd.tenant.user, cmd.now)
    case ArchiveCase => c.Archive(cmd.tenant.user, cmd.now)
  }

  function Needed(a: Action): Permission {
    if a.ArchiveCase? then CaseArchive else CaseWrite
  }

  /** _locked_case followed by the domain transition. */
  function Decide(text: TextRules, rows: CaseTable, cmd: Command): Result<Case, ServiceError> {
    if Needed(cmd.action) !in cmd.tenant.permissions then Failure(PermissionDenied)
    else if RowOf(cmd) !in rows then Failure(CaseNotFound)
    else if rows[RowOf(cmd)].lockVersion != cmd.lockVersion then Failure(ConcurrencyConflict)
    else
      match Apply(text, rows[RowOf(cmd)], cmd)
      case Failure(e) => Failure(Refused(e))
      case Success(c) => Success(c)
  }

  /** The conditional update: a miss changes nothing and is not noticed. */
  function Written(rows: CaseTable, c: Case): CaseTable {
    if (c.org, c.id) in rows && rows[(c.org, c.id)].lockVersion == c.lockVersion - 1 then rows[(c.org, c.id) := c] else rows
  }

  ghost predicate ValidTable(rows: CaseTable) {
    forall k :: k in rows ==> rows[k].org == k.0 && rows[k].id == k.1 && rows[k].MetadataAgrees()
  }

  // ---------- the store and the service ----------

  class SqlAlchemyCaseRepository {
    var rows: CaseTable

    constructor ()
      ensures rows == map[]
    {
      rows := map[];
    }

    method Add(c: Case)
      requires (c.org, c.id) !in rows
      modifies this
      ensures rows == old(rows)[(c.org, c.id) := c]
    {
      rows := rows[(c.org, c.id) := c];
    }

    /** SELECT ... FOR UPDATE: the row stays locked until the transaction ends. */
    method GetForUpdate(org: Uuid, id: Uuid) returns (found: Option<Case>)
      ensures found == if (org, id) in rows then Some(rows[(org, id)]) else None
    {
      found := if (org, id) in rows then Some(rows[(org, id)]) else None;
    }

    method Update(c: Case) returns (saved: Case)
      modifies this
      ensures saved == c && rows.Keys == old(rows.Keys)
      ensures forall k :: k in rows && k != (c.org, c.id) ==> rows[k] == old(rows)[k]
      ensures (c.org, c.id) in rows ==>
        rows[(c.org, c.id)] == if old(rows)[(c.org, c.id)].lockVersion + 1 == c.lockVersion then c else old(rows)[(c.org, c.id)]
      ensures rows == Written(old(rows), c)
    {
      if (c.org, c.id) in rows && rows[(c.org, c.id)].lockVersion == c.lockVersion - 1 {
        rows := rows[(c.org, c.id) := c];
      }
      saved := c;
    }
  }

  datatype AuditEntry = AuditEntry(action: Action, org: Uuid, caseId: Uuid, at: Instant)

  class CaseService {
    const repository: SqlAlchemyCaseRepository
    const text: TextRules
    var audit: seq<AuditEntry>

    constructor (repository: SqlAlchemyCaseRepository, text: TextRules)
      ensures this.repository == repository && this.text == text && audit == []
    {
      this.repository := repository;
      this.text := text;
      audit := [];
    }

    method LockedCase(cmd: Command) returns (r: Result<Case, ServiceError>)
      ensures r == if RowOf(cmd) !in repository.rows then Failure(CaseNotFound)
                   else if repository.rows[RowOf(cmd)].lockVersion != cmd.lockVersion then Failure(ConcurrencyConflict)
                   else Success(repository.rows[RowOf(cmd)])
    {
      var found := repository.GetForUpdate(cmd.tenant.org, cmd.caseId);
      if found.None? { return Failure(CaseNotFound); }
      if found.value.lockVersion != cmd.lockVersion { return Failure(ConcurrencyConflict); }
      r := Success(found.value);
    }

    /** Lock, check, change, audit, commit. What is returned is what is stored. */
    method Handle(cmd: Command) returns (r: Result<Case, ServiceError>)
      requires ValidTable(repository.rows)
      modifies repository, this`audit
      ensures r == Decide(text, old(repository.rows), cmd)
      ensures repository.rows == if r.Success? then old(repository.rows)[RowOf(cmd) := r.value] else old(repository.rows)
      ensures audit == if r.Success? then old(audit) + [AuditEntry(cmd.action, cmd.tenant.org, cmd.caseId, cmd.now)] else old(audit)
      ensures ValidTable(repository.rows)
    {
      if Needed(cmd.action) !in cmd.tenant.permissions { return Failure(PermissionDenied); }
      var locked := LockedCase(cmd);
      if locked.Failure? { return locked; }
      var changed := Apply(text, locked.value, cmd);
      if changed.Failure? { return Failure(Refused(changed.error)); }
      ApplyKeepsAgreement(text, locked.value, cmd);
      var saved := repository.Update(changed.value);
      audit := audit + [AuditEntry(cmd.action, cmd.tenant.org, cmd.caseId, saved.updatedAt)];
      r := Success(saved);
    }
  }

  // ---------- one command ----------

  lemma ApplyKeepsAgreement(text: TextRules, c: Case, cmd: Command)
    requires c.MetadataAgrees() && Apply(text, c, cmd).Success?
    ensures var n := Apply(text, c, cmd).value;
      && n.MetadataAgrees() && n.lockVersion == c.lockVersion + 1
      && n.id == c.id && n.org == c.org && n.createdAt == c.createdAt && n.createdBy == c.createdBy
      && n.updatedAt == cmd.now && n.updatedBy == cmd.tenant.user
  {
  }

  /** A free text as it is stored: normalized, and absent when blank. */
  predicate StoredText(text: TextRules, given: Option<string>, stored: Option<string>) {
    if given.Some? && text.normalize(given.value) != "" then stored == Some(text.normalize(given.value)) else stored == None
  }

  predicate TooLong(text: TextRules, given: Option<string>, max: nat) {
    given.Some? && |text.normalize(given.value)| > max
  }

  /** Every accepted command takes effect: closing, reopening and archiving set the status and
      its own metadata and no text, an update the texts and no status. */
  lemma ActionTakesEffect(text: TextRules, c: Case, cmd: Command)
    requires Apply(text, c, cmd).Success?
    ensures var n := Apply(text, c, cmd).value;
      match cmd.action
      case UpdateCase(title, summary, priority, reference) =>
        && n.status == c.status && n.closedAt == c.closedAt && n.closedBy == c.closedBy
        && n.archivedAt == c.archivedAt && n.archivedBy == c.archivedBy
        && n.title == text.normalize(if title.Some? then title.value else c.title) && 0 < |n.title| <= 255
        && StoredText(text, summary, n.summary) && StoredText(text, reference, n.externalReference)
        && (if priority.Some? then n.priority == priority.value else n.priority == c.priority)
      case CloseCase =>
        && n.status == Closed && n.closedAt == Some(cmd.now) && n.closedBy == Some(cmd.tenant.user)
        && n.archivedAt == c.archivedAt && n.archivedBy == c.archivedBy && SameTexts(c, n)
      case ReopenCase =>
        && n.status == Open && n.closedAt == None && n.closedBy == None
        && n.archivedAt == c.archivedAt && n.archivedBy == c.archivedBy && SameTexts(c, n)
      case ArchiveCase =>
        && n.status == Archived && n.archivedAt == Some(cmd.now) && n.archivedBy == Some(cmd.tenant.user)
        && n.closedAt == c.closedAt && n.closedBy == c.closedBy && SameTexts(c, n)
  {
  }

  predicate SameTexts(c: Case, n: Case) {
    n.title == c.title && n.summary == c.summary && n.priority == c.priority && n.externalReference == c.externalReference
  }

  /** Exact conditions of every refusal: an archived case takes only archiving, and a text has
      to be there and fit. */
  lemma RefusedIff(text: TextRules, c: Case, cmd: Command)
    ensures var r := Apply(text, c, cmd);
      && (r == Failure(ArchivedCannotReopen) <==> c.status == Archived && cmd.action == ReopenCase)
      && (r == Failure(ArchivedRejectsMutation) <==> c.status == Archived && (cmd.action == CloseCase || cmd.action.UpdateCase?))
      && (r == Failure(RequiredText) <==>
            c.status != Archived && cmd.action.UpdateCase?
            && text.normalize(if cmd.action.title.Some? then cmd.action.title.value else c.title) == "")
      && (r == Failure(TextTooLong) <==>
            c.status != Archived && cmd.action.UpdateCase?
            && text.normalize(if cmd.action.title.Some? then cmd.action.title.value else c.title) != ""
            && (TooLong(text, Some(if cmd.action.title.Some? then cmd.action.title.value else c.title), 255)
                || TooLong(text, cmd.action.summary, 4000) || TooLong(text, cmd.action.reference, 255)))
  {
  }

  /** Exact conditions of every answer, in the order the checks are made. A command reaches
      only its own organization's row. */
  lemma DecidedBy(text: TextRules, rows: CaseTable, cmd: Command)
    requires ValidTable(rows)
    ensures var r := Decide(text, rows, cmd);
      var key := (cmd.tenant.org, cmd.caseId);
      var permitted := (if cmd.action == ArchiveCase then CaseArchive else CaseWrite) in cmd.tenant.permissions;
      && (r == Failure(PermissionDenied) <==> !permitted)
      && (r == Failure(CaseNotFound) <==> permitted && key !in rows)
      && (r == Failure(ConcurrencyConflict) <==> permitted && key in rows && rows[key].lockVersion != cmd.lockVersion)
      && (r.Success? || (r.Failure? && r.error.Refused?) <==> permitted && key in rows && rows[key].lockVersion == cmd.lockVersion)
      && (r.Success? ==> Apply(text, rows[key], cmd) == Success(r.value) && r.value.org == cmd.tenant.org && r.value.id == cmd.caseId)
      && (r.Failure? && r.error.Refused? ==> Apply(text, rows[key], cmd) == Failure(r.error.error))
  {
    var key := (cmd.tenant.org, cmd.caseId);
    if key in rows && Apply(text, rows[key], cmd).Success? { ApplyKeepsAgreement(text, rows[key], cmd); }
  }

  // ---------- runs under the row lock ----------

  function NewCase(text: TextRules, id: Uuid, tenant: Tenant, title: string, summary: Option<string>, priority: Priority,
                   reference: Option<string>, now: Instant): Result<Case, CaseError>
  {
    match text.Required(title, 255)
    case Failure(e) => Failure(e)
    case Success(t) =>
      match text.Optional(summary, 4000)
      case Failure(e) => Failure(e)
      case Success(s) =>
        match text.Optional(reference, 255)
        case Failure(e) => Failure(e)
        case Success(r) =>
          Success(Case(id, tenant.org, t, s, Open, priority, r, now, tenant.user, now, tenant.user, None, None, None, None, 1))
  }

  datatype Event =
    | Create(id: Uuid, tenant: Tenant, title: string, summary: Option<string>, priority: Priority, reference: Option<string>, now: Instant)
    | Execute(cmd: Command)

  /** One transaction; the row lock makes read, check and write one step. */
  function Step(text: TextRules, rows: CaseTable, e: Event): CaseTable {
    match e
    case Create(id, tenant, title, summary, priority, reference, now) =>
      if (tenant.org, id) in rows || CaseWrite !in tenant.permissions then rows
      else
        (match NewCase(text, id, tenant, title, summary, priority, reference, now)
         case Failure(_) => rows
         case Success(c) => rows[(tenant.org, id) := c])
    case Execute(cmd) =>
      (match Decide(text, rows, cmd)
       case Failure(_) => rows
       case Success(c) => rows[RowOf(cmd) := c])
  }

  function After(text: TextRules, start: CaseTable, events: seq<Event>): CaseTable {
    if events == [] then start else Step(text, After(text, start, events[..|events| - 1]), events[|events| - 1])
  }

  /** The lock versions carried by the committed commands on one case, in commit order. */
  function Committed(text: TextRules, start: CaseTable, events: seq<Event>, key: (Uuid, Uuid)): seq<nat> {
    if events == [] then []
    else
      var earlier := Committed(text, start, events[..|events| - 1], key);
      var e := events[|events| - 1];
      if e.Execute? && RowOf(e.cmd) == key && Decide(text, After(text, start, events[..|events| - 1]), e.cmd).Success?
      then earlier + [e.cmd.lockVersion] else earlier
  }

  lemma StepKeepsTable(text: TextRules, rows: CaseTable, e: Event)
    requires ValidTable(rows)
    ensures ValidTable(Step(text, rows, e))
  {
    if e.Execute? && Decide(text, rows, e.cmd).Success? { ApplyKeepsAgreement(text, rows[RowOf(e.cmd)], e.cmd); }
  }

  /** In every reachable state the metadata of every case agrees with its status. */
  lemma {:induction false} MetadataAlwaysAgrees(text: TextRules, start: CaseTable, events: seq<Event>)
    requires ValidTable(start)
    ensures ValidTable(After(text, start, events))
  {
    if events != [] {
      MetadataAlwaysAgrees(text, start, events[..|events| - 1]);
      StepKeepsTable(text, After(text, start, events[..|events| - 1]), events[|events| - 1]);
    }
  }

  ghost predicate CountsUp(versions: seq<nat>) {
    forall i :: 0 <= i < |versions| ==> versions[i] == i + 1
  }

  /** From an empty table, the i-th committed command on a case carried lock version i, so no
      two commands with the same version both commit. */
  lemma {:induction false} CommitsCountUp(text: TextRules, events: seq<Event>, key: (Uuid, Uuid))
    ensures var versions := Committed(text, map[], events, key);
      var rows := After(text, map[], events);
      && CountsUp(versions)
      && (key in rows ==> rows[key].lockVersion == |versions| + 1)
      && (key !in rows ==> versions == [])
  {
    if events != [] {
      var init, e := events[..|events| - 1], events[|events| - 1];
      CommitsCountUp(text, init, key);
      MetadataAlwaysAgrees(text, map[], init);
      var rows := After(text, map[], init);
      if e.Execute? && Decide(text, rows, e.cmd).Success? { ApplyKeepsAgreement(text, rows[RowOf(e.cmd)], e.cmd); }
    }
  }

  /** Archived has no exit: the case stays archived through every run, and the only commands
      that still commit on it archive it again. */
  lemma {:induction false} ArchivedHasNoExit(text: TextRules, start: CaseTable, events: seq<Event>, key: (Uuid, Uuid))
    requires key in start && start[key].status == Archived
    ensures var rows := After(text, start, events); key in rows && rows[key].status == Archived
    ensures forall cmd :: RowOf(cmd) == key && Decide(text, After(text, start, events), cmd).Success? ==> cmd.action == ArchiveCase
  {
    if events != [] { ArchivedHasNoExit(text, start, events[..|events| - 1], key); }
  }

  // ---------- why the row lock matters ----------

  /** The conditional update reports a row that is stored exactly when the version it expects
      is still there (or the very same row already is). */
  lemma UpdateIsTruthfulIff(rows: CaseTable, c: Case)
    requires (c.org, c.id) in rows && c.lockVersion > 0
    ensures Written(rows, c)[(c.org, c.id)] == c
      <==> rows[(c.org, c.id)].lockVersion == c.lockVersion - 1 || rows[(c.org, c.id)] == c
  {
  }

  /** Without the lock, two commands that read the same row both report success, and the
      second one's change is lost: the row holds the first one's result. */
  lemma UnlockedUpdatesAreLost(text: TextRules, rows: CaseTable, a: Command, b: Command)
    requires ValidTable(rows) && RowOf(a) == RowOf(b)
    requires Decide(text, rows, a).Success? && Decide(text, rows, b).Success?
    ensures var ca := Decide(text, rows, a).value;
      var cb := Decide(text, rows, b).value;
      Written(Written(rows, ca), cb) == Written(rows, ca) == rows[RowOf(a) := ca]
  {
    ApplyKeepsAgreement(text, rows[RowOf(a)], a);
    ApplyKeepsAgreement(text, rows[RowOf(b)], b);
  }

  /** With the lock, the second of two such commands is refused as a conflict. */
  lemma LockedUpdatesConflict(text: TextRules, rows: CaseTable, a: Command, b: Command)
    requires ValidTable(rows) && RowOf(a) == RowOf(b)
    requires Decide(text, rows, a).Success? && Decide(text, rows, b).Success?
    ensures Decide(text, Step(text, rows, Execute(a)), b) == Failure(ConcurrencyConflict)
  {
    ApplyKeepsAgreement(text, rows[RowOf(a)], a);
  }
}
