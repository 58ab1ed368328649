# Verified model of WorkflowForge's stateful core

WorkflowForge is a tenant-scoped document and case platform. This project models the
parts of it whose correctness spans many calls, and proves what they promise: session
and refresh-token rotation, idempotent content-addressed upload, the architecture cycle
checker, the fixed-window rate limiter, the streaming upload reader, upload fingerprints
and storage keys, audit metadata sanitizing, membership administration and lock-versioned
cases. `dafny verify dfyconfig.toml` checks everything.

## How it is organised

- `Common` holds options, results and a few facts about sequences and sets.
- `SessionRecords`, `SessionTables`, `SessionLifecycle` are the session and token records,
  the two tables with what each SQL statement does to them, and the use-case decisions.
  `SessionRuns` turns them into a step system: login, a separate READ and atomic COMMIT
  phase per refresh (any number of requests may hold stale reads), logout, logout-all,
  access verification, bounded cleanup and a clock that never goes back.
  `SessionInvariants`, `SessionSafety`, `SessionChain`, `SessionRefinement` and
  `SessionCleanup` prove what runs keep, `SessionRetention` what a cleanup deletes in terms
  of the rows' columns, `SessionSchedules` what any number of cleanups does, `SessionAudit`
  what the audit trail holds, and `SessionCleanupShows` is a run in which a cleanup can be
  noticed; `SessionStore` has the repository and the use cases as classes, each
  method proved against the function the runs use.
- `ArchitectureGraph`, `ArchitectureCycles`, `ArchitectureRules` are the depth-first cycle
  search over arbitrary finite graphs, canonical cycles, and the validation of files;
  `ArchitectureReport` is the whole report, stated in terms of the imports in the files.
- `RateLimiter` is the limiter over Redis counters, whose clock counts milliseconds and
  whose announced waits are rounded to seconds; `RateLimitRuns` its runs with at most k
  check-then-record attempts in flight per key, `RateLimitIsolation` what one caller's
  failures mean to another.
- `UploadReader` is the reading loop and the sample checks; `UploadNames` the fingerprint
  text and the storage keys; `UploadPreparation` reads, fingerprints and checks an upload.
  `UploadProtocol` is the upload use case as steps between
  database commits and object-storage calls, where every call may fail with or without
  effect and a request may stop anywhere; `UploadSafety` and `UploadReplay` prove what its
  runs keep, `UploadOutcomes` exactly when an outcome is final and when a retry can
  succeed. `UploadService` has the repositories, the storage and the use case as classes;
  other requests may run between any two of its commits and storage calls, and with them
  it is proved to be a run of the protocol.
- `AuditMetadata`, `Memberships`, `Cases` are the sanitizer, the membership lifecycle with
  its guards, and the case aggregate with its service; `AuditAcceptance` says exactly which
  metadata the sanitizer accepts and that what it stores says what was passed.

Clocks, random identifiers, SHA-256, case folding and whitespace normalization are
parameters or fresh values. Refresh secrets are identified with their digests; where
upload digests have to be injective, a lemma says so in its `requires`.

## Where the code does less than one might expect

- A bounded cleanup is not always invisible: a spent token that expired before its still
  active session can be deleted, after which replaying it goes unnoticed instead of
  killing the session (`SessionCleanupShows.CleanupCanShow` is such a run); and a refresh
  that read before the cleanup and commits after it can lose the row it read.
  `SessionCleanup.CleanupInvisibleIff` gives the exact condition on the rows about to be
  deleted, `SessionSchedules.NextCleanupInvisibleIff` the same after any number of earlier
  cleanups. Equal lifetimes, the defaults, meet it while no refresh stays in flight past
  the expiry of its session (`SessionCleanup.EqualLifetimesLeaveNoTrace`).
- Looking a key up and reserving it are not atomic, nor are reading a retryable failure and
  taking it back in progress: a late request can write over a final outcome
  (`UploadOutcomes.RaceReplacesOutcome`, `UploadOutcomes.RetryReopensOutcome`).
  `UploadOutcomes.NeverWrittenAgainIff` says when an outcome is final for good.
- A validation failure is stored without a fingerprint, so a later request with the same
  idempotency key and different content gets the stored error, not a conflict. Of the
  final outcomes only a completed upload answers different content with a conflict
  (`UploadReplay.ConflictIffCompleted`).
- A retry of a retryable failure whose record holds a fingerprint compares fingerprints by
  reading its one-shot stream, and then has nothing left to upload. A failure before the
  fingerprint existed holds none: its retry compares nothing, so it can succeed, with
  different content as well (`UploadOutcomes.RetryDeliversIff`).
- Audit metadata that contains itself is refused by the depth bound alone
  (`AuditMetadata.SelfContainingIsRefused`).
- Not every dependency cycle is reported (`ArchitectureCycles.UpperIsNotReported`): one is
  if and only if each of its steps goes to the least dependency, in string order, that
  leads to any cycle (`ArchitectureCycles.CycleIsReportedIff`). The component of a cycle
  from which no other can be reached always has a report
  (`ArchitectureCycles.BottomIsReported`).
- The wait announced with a denial is rounded to whole seconds and can end before the
  denial does (`RateLimitRuns.RoundedWaitCanBeTooShort`), by less than half a second
  (`RateLimitRuns.DenialEnds`); `RateLimitRuns.AnnouncedWaitEndsRefreshDenialIff` and
  `RateLimitRuns.AnnouncedWaitEndsDenialIff` say when it does not.
- The case repository's conditional update does not look at its row count; without the row
  lock the second of two updates is lost and still reported as saved
  (`Cases.UnlockedUpdatesAreLost`).

## Model

| member | source | states |
|---|---|---|
| SessionRecords.RevokeEndsSession | packages/domain/src/workflowforge_domain/identity/sessions.py:154-178 | revocation marks the session with its moment, once and for good; nothing else about it changes |
| SessionRecords.ConsumeOnce | packages/domain/src/workflowforge_domain/identity/sessions.py:253-286 | a consumed token is marked with moment and successor and cannot be consumed again, whoever tries whenever |
| SessionTables.RotationRowsAreCurrent | packages/infrastructure/src/workflowforge_infrastructure/identity/repository.py:253-297 | the conditional update selects exactly the expected row, and only when the domain calls the token current and its session active |
| SessionTables.RotateMatchesDomain | packages/infrastructure/src/workflowforge_infrastructure/identity/repository.py:253-297 | the SQL rotation accepts if and only if the domain would, and writes what the domain's consume returns beside the untouched replacement |
| SessionTables.RotateRefusal | packages/infrastructure/src/workflowforge_infrastructure/identity/repository.py:253-297 | a refused rotation is a duplicate digest exactly when the new digest is taken, and stale otherwise |
| SessionTables.RotateNeedsTheRow | packages/infrastructure/src/workflowforge_infrastructure/identity/repository.py:253-297 | a rotation succeeds only over a row of that session, digest and generation, and marks it used |
| SessionTables.FirstBatchIs | packages/infrastructure/src/workflowforge_infrastructure/security/repository.py:57-109 | an ordered, limited selection has min(limit, candidates) rows and everything left out sorts after all of them |
| SessionTables.FirstBatchIsUnique | packages/infrastructure/src/workflowforge_infrastructure/security/repository.py:57-109 | size and order determine the selection |
| SessionInvariants.CommitRotates | packages/application/src/workflowforge_application/identity/session_lifecycle.py:315-367 | a commit holding a stale read changes nothing or rotates exactly the row it read, and when it does which |
| SessionInvariants.LoginAdds | packages/application/src/workflowforge_application/identity/session_lifecycle.py:152-218 | a login with fresh identifiers succeeds and adds one session with one generation-0 token, nothing else |
| SessionInvariants.ReadyIff | packages/application/src/workflowforge_application/identity/session_lifecycle.py:271-350 | the read phase prepares a rotation if and only if the presented token is current and its session active, and what it prepares |
| SessionInvariants.StepKeepsInv | packages/application/src/workflowforge_application/identity/session_lifecycle.py:271-367 | no step of any request, in any interleaving with cleanup, breaks the table, in-flight and redemption invariants |
| SessionInvariants.RunKeepsInv | packages/application/src/workflowforge_application/identity/session_lifecycle.py:152-532 | the invariants hold after every run |
| SessionSafety.RedeemedAtMostOnce | packages/infrastructure/src/workflowforge_infrastructure/identity/repository.py:253-297 | every issued secret is redeemed at most once in any interleaving of any number of stale refreshes |
| SessionSafety.LogoutAndReplayKill | packages/application/src/workflowforge_application/identity/session_lifecycle.py:281-318 | a committed logout kills its session, a detected replay the session of the spent token presented |
| SessionSafety.LogoutAllKills | packages/application/src/workflowforge_application/identity/session_lifecycle.py:464-490 | logout-all marks every unrevoked session of the user with its moment, reports their number, and leaves the user no active session and other users untouched |
| SessionSafety.RevocationIsAbsorbing | packages/application/src/workflowforge_application/identity/session_lifecycle.py:412-532 | no continuation serves a refresh or an access verification from a revoked session |
| SessionAudit.StepAppends | packages/application/src/workflowforge_application/identity/session_lifecycle.py:183-206 | every step appends exactly the audit entries of its outcome, or none when no recorder is configured |
| SessionAudit.AuditIsExact | packages/application/src/workflowforge_application/identity/session_lifecycle.py:152-490 | over every run the trail holds one pair of entries per login, one pair per detected replay and one entry per logout, of every session |
| SessionAudit.NoAuditNoTrail | packages/application/src/workflowforge_application/identity/session_lifecycle.py:183-206 | without a recorder no run writes anything |
| SessionChain.CommitWinsIffNewest | packages/application/src/workflowforge_application/identity/session_lifecycle.py:315-354 | of all stale requests exactly those holding the newest link of an unrevoked session win; the rest get a stale-rotation conflict |
| SessionChain.RunKeepsChains | packages/domain/src/workflowforge_domain/identity/sessions.py:288-309 | after any run without cleanup each session's tokens are one chain of generations 0..n with expiries following the policy, and refresh events number n |
| SessionChain.TokensFormOneChain | packages/application/src/workflowforge_application/identity/session_lifecycle.py:315-354 | the same from an empty store, as a reader of the tables sees it |
| SessionRefinement.StepRefines | packages/application/src/workflowforge_application/identity/session_lifecycle.py:271-367 | every step of the tables maps to the step of a one-slot machine per session with the same outcome |
| SessionRefinement.RunRefines | packages/application/src/workflowforge_application/identity/session_lifecycle.py:152-532 | over every run without cleanup, callers of the tables see exactly what callers of the slots would |
| SessionCleanup.CleanupIsBoundedAndSafe | packages/infrastructure/src/workflowforge_infrastructure/security/repository.py:57-105 | a successful cleanup deletes at most `limit` rows per query, never an active session or a redeemable token, and changes no kept row |
| SessionRetention.CleanupIs | packages/application/src/workflowforge_application/security/cleanup.py:44-73 | a cleanup takes the earliest rows due by their own columns, up to the limit per statement, and counts them; it is refused exactly when a statement would leave a token without the successor it names |
| SessionRetention.CleanupKeepsRetention | packages/infrastructure/src/workflowforge_infrastructure/security/repository.py:57-105 | no session goes before its expiry or revocation is past its retention, no token before its expiry or its session, and a count below the limit means nothing due is left |
| SessionCleanup.StepAgrees | packages/application/src/workflowforge_application/security/cleanup.py:44-73 | a world and its cleaned copy answer every step alike while they agree, and keep agreeing |
| SessionCleanup.RunAgrees | packages/application/src/workflowforge_application/security/cleanup.py:44-73 | agreeing worlds grant exactly the same refreshes, logins and verifications over every run |
| SessionCleanup.ContendersWin | packages/application/src/workflowforge_application/identity/session_lifecycle.py:315-354 | the requests in flight that can still win are known from the tables: their row is current and their session active as of their read |
| SessionCleanup.TraceIsPredictable | packages/infrastructure/src/workflowforge_infrastructure/security/repository.py:57-105 | the two batches of expired rows, known before the call, decide whether replay evidence and the rows of possible winners survive all three deletions |
| SessionCleanup.LostEvidenceIsNoticed | packages/application/src/workflowforge_application/identity/session_lifecycle.py:281-314 | when a spent token of a session that can still answer was deleted, replaying it and using the session tells the worlds apart |
| SessionCleanup.LostContenderIsNoticed | packages/application/src/workflowforge_application/identity/session_lifecycle.py:315-354 | a commit that would have won fails when its row was deleted |
| SessionCleanup.CleanupInvisibleIff | packages/application/src/workflowforge_application/security/cleanup.py:44-73 | whatever is in flight, no later login, refresh or verification before the next cleanup can tell that one happened if and only if its batches of expired rows held no spent token of a session that can still answer and no row of a refresh that can still win |
| SessionCleanup.EqualLifetimesLeaveNoTrace | packages/application/src/workflowforge_application/identity/session_lifecycle.py:60-80 | with equal token and session lifetimes cleanups meet that condition while no possible winner outstays its session's expiry |
| SessionSchedules.AgreementJoins | packages/application/src/workflowforge_application/security/cleanup.py:44-73 | a world that skipped two cleanups still agrees with the one that ran both |
| SessionSchedules.TracelessSchedulesAreInvisible | packages/application/src/workflowforge_application/security/cleanup.py:44-73 | a run with any number of cleanups, each traceless where it happens, answers every login, refresh and verification as the run that skips them all |
| SessionSchedules.NextCleanupInvisibleIff | packages/application/src/workflowforge_application/security/cleanup.py:44-73 | after any number of traceless cleanups, the next can be told from never having cleaned up if and only if it leaves a trace |
| SessionCleanupShows.CleanupCanShow | packages/application/src/workflowforge_application/security/cleanup.py:44-73 | a reachable cleanup that deletes the spent token of an active session and can be told by a later replay |
| SessionStore.SessionRepository.Add | packages/infrastructure/src/workflowforge_infrastructure/identity/repository.py:148-165 | inserts session and token together or, on a taken key, rolls back and says which |
| SessionStore.SessionRepository.GetRefreshTokenByDigest | packages/infrastructure/src/workflowforge_infrastructure/identity/repository.py:195-209 | returns a token exactly when a row carries the digest, and then that row |
| SessionStore.SessionRepository.GetActiveById | packages/infrastructure/src/workflowforge_infrastructure/identity/repository.py:175-193 | returns the session exactly when it is unrevoked and unexpired at that moment |
| SessionStore.SessionRepository.RevokeCurrentRefreshTokens | packages/infrastructure/src/workflowforge_infrastructure/identity/repository.py:299-313 | marks every unused, unrevoked token of the session and leaves all other tokens, all sessions and the committed tables |
| SessionStore.SessionRepository.Revoke | packages/infrastructure/src/workflowforge_infrastructure/identity/repository.py:222-233 | the working tables become those of the revocation function; a missing session or bad timestamp changes nothing |
| SessionStore.SessionRepository.RevokeAllForUser | packages/infrastructure/src/workflowforge_infrastructure/identity/repository.py:235-251 | the loop over revoked sessions revokes exactly the unused tokens of all of them and counts the sessions |
| SessionStore.SessionRepository.RotateRefreshToken | packages/infrastructure/src/workflowforge_infrastructure/identity/repository.py:253-297 | insert, conditional update and row count together are the rotation, or roll back with the reason |
| SessionStore.SelectBatch | packages/infrastructure/src/workflowforge_infrastructure/security/repository.py:57-109 | picking earliest rows one at a time yields the ordered, limited batch |
| SessionStore.SessionRepository.DeleteExpiredRefreshTokenRows | packages/infrastructure/src/workflowforge_infrastructure/security/repository.py:57-72 | deletes the batch of earliest expired tokens, or nothing when a surviving row still refers to one of them |
| SessionStore.SessionRepository.DeleteExpiredSessionRows | packages/infrastructure/src/workflowforge_infrastructure/security/repository.py:74-87 | deletes the batch of earliest expired sessions with their tokens, or nothing on a broken reference |
| SessionStore.SessionRepository.DeleteRevokedSessionRows | packages/infrastructure/src/workflowforge_infrastructure/security/repository.py:89-105 | deletes the batch of sessions revoked longest ago with their tokens, or nothing on a broken reference |
| SessionStore.SessionService.StartUserSession | packages/application/src/workflowforge_application/identity/session_lifecycle.py:159-207 | commits a new session with its audit entries, or leaves store and audit as they were |
| SessionStore.SessionService.ReadRefresh | packages/application/src/workflowforge_application/identity/session_lifecycle.py:271-350 | answers as the read phase of the runs; a detected replay is revoked, audited and committed here |
| SessionStore.SessionService.CommitRefresh | packages/application/src/workflowforge_application/identity/session_lifecycle.py:315-367 | publishes the rotation with its audit entry, or rolls everything back |
| SessionStore.SessionService.Logout | packages/application/src/workflowforge_application/identity/session_lifecycle.py:412-443 | revokes and audits an owned session; unknown and foreign sessions are refused without change |
| SessionStore.SessionService.LogoutAll | packages/application/src/workflowforge_application/identity/session_lifecycle.py:464-490 | revokes all sessions of the user and returns their number |
| SessionStore.SessionService.CleanupExpired | packages/application/src/workflowforge_application/security/cleanup.py:44-73 | three deletions and a commit that keep every row within its retention, or all rolled back on a broken reference |
| ArchitectureGraph.FindCycleFromIsExact | scripts/validate_architecture.py:341-356 | the search terminates on every finite graph; it returns an element-distinct closed walk reachable from its start, and nothing exactly when no cycle is reachable |
| ArchitectureGraph.EmptyVisitExhausts | scripts/validate_architecture.py:344-356 | an empty-handed visit means no walk onward repeats a package or meets the path |
| ArchitectureGraph.VisitLeadsToCycle | scripts/validate_architecture.py:344-356 | a visit succeeds if and only if the package it stands on leads to a cycle |
| ArchitectureGraph.VisitFollows | scripts/validate_architecture.py:344-356 | the search turns to the least dependency that leads to a cycle, closing its path or visiting on |
| ArchitectureGraph.FollowedCycleIsFound | scripts/validate_architecture.py:341-356 | a cycle all of whose steps do so is what the search from its own first package returns |
| ArchitectureGraph.Sorted | scripts/validate_architecture.py:320-345 | a set of names listed once each in strictly increasing string order |
| ArchitectureCycles.NormalizeIsCanonical | scripts/validate_architecture.py:359-365 | two element-distinct cycles normalize equally if and only if one is a rotation of the other |
| ArchitectureCycles.NormalizeIsIdempotent | scripts/validate_architecture.py:359-365 | normalizing a normalized cycle changes nothing |
| ArchitectureCycles.NormalizeKeepsCycle | scripts/validate_architecture.py:359-365 | the canonical form of a cycle of the graph is a cycle of the graph |
| ArchitectureCycles.DetectCycles | scripts/validate_architecture.py:309-338 | the loop with its set of seen canonical forms reports the first found cycle of each kind, in package order |
| ArchitectureCycles.ReportIsExact | scripts/validate_architecture.py:309-338 | every report is a real cycle, no two are the same cycle, and there are none if and only if the whole graph is acyclic |
| ArchitectureCycles.CycleIsReportedIff | scripts/validate_architecture.py:309-356 | a cycle is reported, in some rotation, if and only if each of its steps goes to the least dependency that leads to any cycle |
| ArchitectureCycles.ReportsAreDisjoint | scripts/validate_architecture.py:309-356 | no package is in two reported cycles |
| ArchitectureCycles.BottomIsReported | scripts/validate_architecture.py:309-356 | a cycle from which no other cyclic component can be reached has its component reported |
| ArchitectureCycles.UpperIsNotReported | scripts/validate_architecture.py:309-356 | a concrete graph in which the upper of two cycles has no report |
| ArchitectureRules.OnlyTheRootOwns | scripts/validate_architecture.py:294-306 | a package owns an import exactly when it is the import's root, so at most one does |
| ArchitectureRules.FindOwningPackage | scripts/validate_architecture.py:300-306 | searching the unordered package set in any order finds the same owner |
| ArchitectureRules.ValidateFile | scripts/validate_architecture.py:159-188 | one file yields its syntax problem, or its import problems in order and its dependencies |
| ArchitectureRules.GraphExplained | scripts/validate_architecture.py:163-178 | every dependency outside the allowed table has its own violation |
| ArchitectureReport.GraphIsTheImports | scripts/validate_architecture.py:156-167 | p depends on d if and only if some parsed file of a source named p imports d or something inside it, allowed or not |
| ArchitectureReport.ProblemsAreTheComplaints | scripts/validate_architecture.py:156-188 | the import problems are exactly those the files earn: a syntax problem, a package that is not allowed, a forbidden root, at its file and line |
| ArchitectureReport.ProblemsInOrder | scripts/validate_architecture.py:156-188 | problems are listed in the order of sources |
| ArchitectureReport.FilesInOrder | scripts/validate_architecture.py:156-188 | and within a source in the order of files |
| ArchitectureReport.ImportsInOrder | scripts/validate_architecture.py:164-188 | and within a file in the order of imports |
| ArchitectureReport.ComplaintsOfOneImport | scripts/validate_architecture.py:164-188 | one import earns one complaint for each of the two grounds it gives |
| ArchitectureReport.ReportIsTheImports | scripts/validate_architecture.py:149-195 | the report holds exactly the complaints the files earn, cycles that are rings of imports, and a cycle exactly when there is a ring |
| ArchitectureReport.ValidateRepository | scripts/validate_architecture.py:149-195 | the nested loops produce such a report, import problems in order and then the cycles |
| ArchitectureRules.CyclesAreExplained | scripts/validate_architecture.py:149-195 | while the allowed-import table is acyclic, a dependency cycle is never the only complaint |
| ArchitectureRules.AllowedImportsAreAcyclic | scripts/validate_architecture.py:25-60 | the configured table permits no cycle |
| ArchitectureRules.AllowedImportsAreTheLowerLayers | scripts/validate_architecture.py:25-60 | a package may import exactly the packages of lower layers |
| RateLimiter.CounterFamiliesAreDisjoint | packages/infrastructure/src/workflowforge_infrastructure/security/rate_limit.py:202-221 | identifier, login-client and refresh-client counters never share a key, whatever the hash |
| RateLimiter.IdentifierKeysDiffer | packages/infrastructure/src/workflowforge_infrastructure/security/rate_limit.py:202-203 | two identifiers share a counter if and only if they are equal |
| RateLimiter.ClientKeysDiffer | packages/infrastructure/src/workflowforge_infrastructure/security/rate_limit.py:206-221 | two clients share a counter if and only if their first 128 characters look alike, unsafe ones being underscores |
| RateLimiter.RedisAuthenticationRateLimiter.IncrementWindow | packages/infrastructure/src/workflowforge_infrastructure/security/rate_limit.py:16-23 | the script counts in the open window or opens one with a full time to live |
| RateLimiter.RedisAuthenticationRateLimiter.Decision | packages/infrastructure/src/workflowforge_infrastructure/security/rate_limit.py:161-200 | check and record decide from count and time to live; an outage follows the failure policy, whether the script had been applied or not |
| RateLimiter.RedisAuthenticationRateLimiter.CombinedDecision | packages/infrastructure/src/workflowforge_infrastructure/security/rate_limit.py:132-159 | both counters in turn; under the closed policy an outage on the first leaves the second alone |
| RateLimiter.RedisAuthenticationRateLimiter.CheckLoginAllowed | packages/infrastructure/src/workflowforge_infrastructure/security/rate_limit.py:50-70 | a check moves no counter, refuses when the identifier's or the client's count has reached its threshold, and announces the longer wait of the two |
| RateLimiter.RedisAuthenticationRateLimiter.CheckRefreshAllowed | packages/infrastructure/src/workflowforge_infrastructure/security/rate_limit.py:107-115 | a check moves no counter and refuses when the client's count has reached its threshold |
| RateLimiter.RedisAuthenticationRateLimiter.RecordRefreshFailure | packages/infrastructure/src/workflowforge_infrastructure/security/rate_limit.py:117-125 | exactly the client's refresh counter moves, in its window, and is judged afterwards |
| RateLimiter.RedisAuthenticationRateLimiter.RecordLoginFailure | packages/infrastructure/src/workflowforge_infrastructure/security/rate_limit.py:72-92 | exactly the identifier's and the client's counters move, each in its own window, and are judged afterwards |
| RateLimiter.RedisAuthenticationRateLimiter.RecordLoginSuccess | packages/infrastructure/src/workflowforge_infrastructure/security/rate_limit.py:94-105 | exactly the counters of that identifier and client are cleared, unless an outage kept Redis from it |
| RateLimiter.RedisAuthenticationRateLimiter.RecordRefreshSuccess | packages/infrastructure/src/workflowforge_infrastructure/security/rate_limit.py:127-130 | exactly the refresh counter is cleared, unless an outage kept Redis from it |
| RateLimitRuns.RunKeepsInv | packages/infrastructure/src/workflowforge_infrastructure/security/rate_limit.py:132-193 | over every run the last window holds all failures since its start, and counted plus admitted attempts stay within the budget |
| RateLimitRuns.FailuresAreBounded | packages/infrastructure/src/workflowforge_infrastructure/security/rate_limit.py:132-193 | with at most k attempts in flight a window holds at most T+k-1 failures and any interval of its length at most 2(T+k-1)-1 |
| RateLimitRuns.BoundIsTight | packages/infrastructure/src/workflowforge_infrastructure/security/rate_limit.py:132-193 | for every threshold, every window and every k some run reaches the interval bound |
| RateLimitRuns.DenialEnds | packages/infrastructure/src/workflowforge_infrastructure/security/rate_limit.py:132-182 | a denied login that waits the announced time and half a second more, without new failures on either counter, is admitted |
| RateLimitRuns.RefreshDenialEnds | packages/infrastructure/src/workflowforge_infrastructure/security/rate_limit.py:107-115 | the same for refresh |
| RateLimitRuns.AnnouncedWaitEndsDenialIff | packages/infrastructure/src/workflowforge_infrastructure/security/rate_limit.py:132-182 | the announced time alone is enough for a login if and only if neither full counter outlasts it |
| RateLimitRuns.AnnouncedWaitEndsRefreshDenialIff | packages/infrastructure/src/workflowforge_infrastructure/security/rate_limit.py:161-182 | the announced time alone is enough for a refresh if and only if the milliseconds left were not rounded down to a whole second |
| RateLimitRuns.RoundedWaitCanBeTooShort | packages/infrastructure/src/workflowforge_infrastructure/security/rate_limit.py:161-182 | a run whose refused attempt waits the announced three seconds and is refused again |
| RateLimitIsolation.StrangersLeaveLogin | packages/infrastructure/src/workflowforge_infrastructure/security/rate_limit.py:50-105 | whatever others fail or succeed with elsewhere, and whatever is refreshed, a login is judged as if they had not |
| RateLimitIsolation.StrangersLeaveRefresh | packages/infrastructure/src/workflowforge_infrastructure/security/rate_limit.py:107-130 | the same for a refresh, which no login touches |
| RateLimitIsolation.OwnFailuresLock | packages/infrastructure/src/workflowforge_infrastructure/security/rate_limit.py:50-92 | as many failures of an identifier within a window as its threshold lock it for every client, and fewer do not |
| UploadReader.StreamUpload | packages/application/src/workflowforge_application/documents/upload_validation.py:136-182 | on every stream, endless ones included, reading stops within max+1 non-empty reads with the whole data, its digest and size, its first 8192 and last 16 bytes, or the right error |
| UploadReader.StopIsUnique | packages/application/src/workflowforge_application/documents/upload_validation.py:150-158 | there is only one read at which the loop can stop, so its outcome is determined |
| UploadReader.ChunkingIsInvisible | packages/application/src/workflowforge_application/documents/upload_validation.py:136-182 | for any chunking the outcome depends only on the data: rejected if and only if empty or over the limit |
| UploadReader.EndlessIsRefused | packages/application/src/workflowforge_application/documents/upload_validation.py:136-182 | a stream that never ends is refused |
| UploadReader.SamplesDecide | packages/application/src/workflowforge_application/documents/upload_validation.py:253-280 | the PDF, PNG and JPEG checks on the samples equal the checks on the whole file |
| UploadReader.FileDecides | packages/application/src/workflowforge_application/documents/upload_validation.py:253-280 | which bytes of the whole file make a PDF, PNG or JPEG accepted, wrongly signed or malformed |
| UploadPreparation.PrepareUpload | packages/application/src/workflowforge_application/documents/service.py:894-910 | what is prepared is the whole stream, with the digest, size and fingerprint that documents and later requests compare, or the right validation error |
| UploadNames.MaterialRoundTrip | packages/application/src/workflowforge_application/documents/upload_validation.py:206-216 | the fingerprint text parses back to hash, filename, media type and size, whatever the filename contains |
| UploadNames.FingerprintIsInjective | packages/application/src/workflowforge_application/documents/upload_validation.py:206-216 | two uploads have the same fingerprint if and only if all four fields agree |
| UploadNames.KeysAreValid | packages/domain/src/workflowforge_domain/documents.py:168-227 | every constructed key passes key validation and splits back into its segments |
| UploadNames.KeysAreInjective | packages/domain/src/workflowforge_domain/documents.py:168-215 | document, temporary and artifact keys are injective and the families disjoint |
| UploadSafety.NextIsLegal | packages/application/src/workflowforge_application/documents/service.py:690-849 | in each phase a request touches only its own temporary object, its own document and the final object of its own hash |
| UploadSafety.StepKeepsInv | packages/application/src/workflowforge_application/documents/service.py:690-849 | no step, storage failure, stop or archival breaks the agreement of requests, documents and objects |
| UploadSafety.StoredMeansStored | packages/application/src/workflowforge_application/documents/service.py:1029-1098 | in every reachable state a stored version has exactly the uploaded bytes under its final key, and a document that is not archived agrees with its version |
| UploadSafety.ContentIsRegisteredOnce | packages/application/src/workflowforge_application/documents/service.py:759-800 | all completed uploads of the same bytes in a tenant name one document, created by one of them |
| UploadReplay.NextUsesKeyLegally | packages/infrastructure/src/workflowforge_infrastructure/documents/repository.py:456-557 | a step writes its key's record only as its reserver, when reserving a free key, or when retrying a retryable failure |
| UploadReplay.SerializedKeepsKeyInv | packages/application/src/workflowforge_application/documents/service.py:651-688 | while no reservation and no retry loses a race, every key has at most one live owner and every completed or failed record the request whose answer it holds |
| UploadReplay.TerminalIsAbsorbing | packages/infrastructure/src/workflowforge_infrastructure/documents/repository.py:456-557 | a completed or non-retryable failed record stays as it is in every continuation, racing ones included, once no request of its key is reserving it or working under it |
| UploadReplay.SerializedKeepsTerminal | packages/application/src/workflowforge_application/documents/service.py:651-688 | while reservations and retries are atomic such a record stays as it is from the start |
| UploadReplay.InProgressTurnsAway | packages/application/src/workflowforge_application/documents/service.py:858-859 | a request that finds its key in progress is answered so at once and changes nothing else |
| UploadReplay.HeldKeyTurnsAway | packages/application/src/workflowforge_application/documents/service.py:851-891 | while a request works under its key, any other that looks it up is turned away for good: it never reserves, claims or works under it |
| UploadReplay.GoesOnIff | packages/application/src/workflowforge_application/documents/service.py:851-891 | a request goes on to reserve if and only if its key is free, and to retry if and only if it finds a retryable failure without fingerprint or with its own |
| UploadReplay.DifferentUploadIsAnswered | packages/application/src/workflowforge_application/documents/service.py:912-930 | what differs from a completed or fingerprinted record is a conflict; an unexpected error passes through |
| UploadReplay.CompletedIsAnswered | packages/application/src/workflowforge_application/documents/service.py:932-960 | the same upload under a completed key is answered from the record while its document is there |
| UploadReplay.ClaimsIff | packages/infrastructure/src/workflowforge_infrastructure/documents/repository.py:466-472 | a retry claims the record if and only if it is still a retryable failure, and crashes otherwise |
| UploadReplay.ReplayReturnsTheFirstAnswer | packages/application/src/workflowforge_application/documents/service.py:851-960 | every later request with a completed key gets its author's document, duplicate flag and status, or a mismatch when it is another upload, and changes no store |
| UploadReplay.ValidationFailureIsReplayed | packages/application/src/workflowforge_application/documents/service.py:864-870 | the error code the first request was answered with is the answer to every later request with the key, whatever it uploads |
| UploadReplay.ConflictIffCompleted | packages/application/src/workflowforge_application/documents/service.py:859-870 | of the final outcomes, a later upload of something else is a conflict if and only if the outcome was a completed upload |
| UploadReplay.FingerprintIdentifiesUpload | packages/application/src/workflowforge_application/documents/upload_validation.py:206-216 | stored fingerprints match exactly the same bytes, filename and media type |
| UploadOutcomes.RaceReplacesOutcome | packages/application/src/workflowforge_application/documents/service.py:662-680 | a reachable run in which two overlapping first uses of a key replace a final outcome: atomic reservation is essential |
| UploadOutcomes.LateClaimReopens | packages/infrastructure/src/workflowforge_infrastructure/documents/repository.py:456-481 | a retry that read the failed record earlier puts whatever it has become back in progress, a completed upload included |
| UploadOutcomes.RetryReopensOutcome | packages/application/src/workflowforge_application/documents/service.py:872-878 | a reachable run in which the second of two retries reopens what the first made final |
| UploadOutcomes.NeverWrittenAgainIff | packages/application/src/workflowforge_application/documents/service.py:651-849 | a final record is never written again in any continuation if and only if no request of its key is reserving it or working under it |
| UploadOutcomes.LateReaderReplaces | packages/application/src/workflowforge_application/documents/service.py:735-754 | a late request that has reserved or claimed its key and has its upload to read can turn any outcome into a retryable failure |
| UploadOutcomes.RetryDeliversIff | packages/application/src/workflowforge_application/documents/service.py:870-891 | a request that finds a retryable failure can still register its upload if and only if that record holds no fingerprint |
| UploadOutcomes.RetryableWithoutFingerprint | packages/application/src/workflowforge_application/documents/service.py:735-754 | an unexpected error while preparing leaves a reachable retryable record without fingerprint |
| UploadOutcomes.StagingIsRecorded | packages/application/src/workflowforge_application/documents/service.py:704-719 | an upload is staged exactly when its temporary object is accepted, with its bytes there and its fingerprint in the record |
| UploadOutcomes.KnownContentIsLinked | packages/application/src/workflowforge_application/documents/service.py:759-800 | an upload is linked to the document that holds its bytes whenever there is one, and adds a document only without one |
| UploadOutcomes.PromotionFailsIff | packages/application/src/workflowforge_application/documents/service.py:1029-1064 | a promotion call leads to failure if and only if it reports one or does not find what it needs |
| UploadOutcomes.StorageFailureIsReported | packages/application/src/workflowforge_application/documents/service.py:735-849 | once the temporary object or a promotion call is refused, the request ends as unavailable or is stopped, in every continuation |
| UploadOutcomes.FailureIsRecorded | packages/application/src/workflowforge_application/documents/service.py:1066-1098 | version and key record the failure, and the document unless it was archived meanwhile |
| UploadOutcomes.SuccessIsRecorded | packages/application/src/workflowforge_application/documents/service.py:802-822 | version and key record success, and the document unless it was archived meanwhile |
| UploadOutcomes.ArchivingIsRecorded | packages/domain/src/workflowforge_domain/documents.py:533-550 | archiving marks the document once, moves its lock version and touches nothing else |
| UploadOutcomes.TempIsDropped | packages/infrastructure/src/workflowforge_infrastructure/storage/s3.py:129-136 | an effective delete removes exactly the request's temporary object |
| UploadOutcomes.TidyingIsBestEffort | packages/application/src/workflowforge_application/documents/service.py:1146-1150 | only the promotion's delete can make an upload fail |
| UploadService.SqlAlchemyDocumentRepository.AddDocument | packages/infrastructure/src/workflowforge_infrastructure/documents/repository.py:50-63 | a second document with the same tenant and hash is refused without change |
| UploadService.SqlAlchemyDocumentRepository.FindDocumentByTenantContentHash | packages/infrastructure/src/workflowforge_infrastructure/documents/repository.py:105-127 | finds an owner of the bytes exactly when there is one |
| UploadService.SqlAlchemyDocumentRepository.PersistDocumentState | packages/infrastructure/src/workflowforge_infrastructure/documents/repository.py:334-355 | writes status and lock version over the expected version only, no other row or field, and does not notice a miss or a missing row |
| UploadService.SqlAlchemyDocumentRepository.MarkVersion | packages/infrastructure/src/workflowforge_infrastructure/documents/repository.py:357-375 | a missing version is an error; otherwise its storage state alone changes, whatever the document's state is |
| UploadService.SqlAlchemyUploadIdempotencyRepository.Reserve | packages/infrastructure/src/workflowforge_infrastructure/documents/repository.py:400-438 | reserves a free key, or returns the record that is there untouched |
| UploadService.SqlAlchemyUploadIdempotencyRepository.MayRetry | packages/infrastructure/src/workflowforge_infrastructure/documents/repository.py:466-472 | only an existing retryable failure may go back in progress |
| UploadService.SqlAlchemyUploadIdempotencyRepository.MarkInProgress | packages/infrastructure/src/workflowforge_infrastructure/documents/repository.py:473-481 | status, answer, error and retryability are written over the row as it is by then; fingerprint, document and outcome stay, as do all other records |
| UploadService.SqlAlchemyUploadIdempotencyRepository.FinalizeFingerprint | packages/infrastructure/src/workflowforge_infrastructure/documents/repository.py:483-500 | a missing record is an error; otherwise the fingerprint and nothing else changes |
| UploadService.SqlAlchemyUploadIdempotencyRepository.Complete | packages/infrastructure/src/workflowforge_infrastructure/documents/repository.py:502-530 | a missing record is an error; otherwise it becomes completed with document, status and outcome, its error cleared |
| UploadService.SqlAlchemyUploadIdempotencyRepository.Fail | packages/infrastructure/src/workflowforge_infrastructure/documents/repository.py:532-557 | a missing record is an error; otherwise it becomes failed with the given fingerprint and retryability, keeping its document id |
| UploadService.S3ObjectStorage.PutTempStream | packages/infrastructure/src/workflowforge_infrastructure/storage/s3.py:65-83 | writes only the request's own temporary object, with or without reporting it |
| UploadService.S3ObjectStorage.CopyToFinal | packages/infrastructure/src/workflowforge_infrastructure/storage/s3.py:85-110 | a copy may fail with or without effect, and does nothing without its source |
| UploadService.S3ObjectStorage.HeadObject | packages/infrastructure/src/workflowforge_infrastructure/storage/s3.py:112-127 | presence and size of an object, or a failed lookup |
| UploadService.UploadDocument.CompleteDuplicate | packages/application/src/workflowforge_application/documents/service.py:989-1027 | drops the temporary object and completes the key with the existing document |
| UploadService.UploadDocument.PromoteTempObject | packages/infrastructure/src/workflowforge_infrastructure/storage/s3.py:85-110 | copy, delete and confirmation in turn, other requests in between, each failing into the failing phase |
| UploadService.UploadDocument.MarkUploadStorageFailed | packages/application/src/workflowforge_application/documents/service.py:1066-1098 | version, document and key record the storage failure as one step |
| UploadService.UploadDocument.PromoteNewDocument | packages/application/src/workflowforge_application/documents/service.py:1029-1064 | head, copy, delete and confirm are steps of the protocol ending ready to publish or failing |
| UploadService.UploadDocument.AddOrFind | packages/application/src/workflowforge_application/documents/service.py:779-800 | the insertion succeeds, or the unique constraint refuses it and the faster upload's document is found as the duplicate |
| UploadService.UploadDocument.RecordPrepareError | packages/application/src/workflowforge_application/documents/service.py:720-754 | a validation error is stored for good, any other error as retryable without a fingerprint |
| UploadService.UploadDocument.PublishDocument | packages/application/src/workflowforge_application/documents/service.py:802-822 | version, document and key record success together |
| UploadService.OthersLeaveRequest | packages/application/src/workflowforge_application/documents/service.py:690-849 | no interleaving of other requests moves a request or loses its record |
| UploadService.UploadDocument.ProcessReservedUpload | packages/application/src/workflowforge_application/documents/service.py:690-849 | the orchestration, unexpected errors, the lost insertion race and every fate of its storage calls included, is a run of protocol steps ending answered, whatever other requests do in between |
| UploadService.UploadDocument.TakeKey | packages/application/src/workflowforge_application/documents/service.py:872-879 | reading and then claiming a retryable failure, with other requests in between, are steps of the protocol, as is reserving a key |
| UploadService.UploadDocument.OnLookupNow | packages/application/src/workflowforge_application/documents/service.py:851-891 | what an existing record is answered with, branch by branch as the protocol says |
| UploadService.UploadDocument.Call | packages/application/src/workflowforge_application/documents/service.py:651-688 | the whole use case, interleaved with any other requests, is its request's part of a run of the protocol, and the stores are those of that run |
| AuditMetadata.BuildMetadata | packages/domain/src/workflowforge_domain/audit.py:224-238 | the loop fills the dictionary in order and stops at the first failing entry |
| AuditMetadata.DeepNestingIsRefused | packages/domain/src/workflowforge_domain/audit.py:224-274 | whatever the containers in memory refer to, nesting beyond the levels left is refused |
| AuditMetadata.SelfContainingIsRefused | packages/domain/src/workflowforge_domain/audit.py:224-274 | the recursion is bounded by depth alone: metadata with a mapping or list that contains itself, however far down and through however many others, is refused |
| AuditAcceptance.AcceptedIff | packages/domain/src/workflowforge_domain/audit.py:224-274 | metadata is accepted if and only if every key, text, size, level, timestamp and type in it is within its bound |
| AuditAcceptance.SecretLikeIff | packages/domain/src/workflowforge_domain/audit.py:241-246 | a key is secret-like exactly when, folded, it contains one of eight words |
| AuditAcceptance.StoredMetadataDenotes | packages/domain/src/workflowforge_domain/audit.py:224-274 | what is stored says what was passed: no value is lost, renamed or replaced, and of a repeated key the last entry counts |
| AuditMetadata.AcceptedMetadataIsSafe | packages/domain/src/workflowforge_domain/audit.py:224-274 | accepted metadata has bounded keys, strings, lists and sizes at every depth |
| AuditMetadata.SafeJsonIsShallow | packages/domain/src/workflowforge_domain/audit.py:241-274 | accepted values nest at most four levels |
| AuditMetadata.NoSecretBelow | packages/domain/src/workflowforge_domain/audit.py:241-246 | no key at any depth of an accepted value is secret-like or over-long |
| AuditMetadata.FixedPointsAreSafe | packages/domain/src/workflowforge_domain/audit.py:241-274 | a value read back from JSON sanitizes to itself if and only if the JSON is safe |
| AuditMetadata.RecordRoundTrip | packages/infrastructure/src/workflowforge_infrastructure/audit/repository.py:102-133 | writing an event and reading it back, fields in any order, preserves its metadata |
| Memberships.TransitionsAreValid | packages/domain/src/workflowforge_domain/identity/entities.py:388-530 | accepted transitions yield valid memberships, keep identity and joining time, and leave Removed for nothing |
| Memberships.TransitionTakesEffect | packages/domain/src/workflowforge_domain/identity/entities.py:388-530 | exactly when a change is accepted, with which error it is refused, and everything an accepted one changes |
| Memberships.ReactivateUndoesSuspend | packages/domain/src/workflowforge_domain/identity/entities.py:408-446 | suspending and reactivating restores everything but the update time |
| Memberships.RuleRejectsExactlyTheLast | packages/domain/src/workflowforge_domain/identity/policies.py:25-58 | on the full roster the rule rejects exactly the only active owner of an organization |
| Memberships.GuardDecides | packages/application/src/workflowforge_application/authorization/policy.py:144-284 | on the full roster the guards permit exactly what owners, admins and others may do |
| Memberships.PermittedTakesEffect | packages/application/src/workflowforge_application/authorization/policy.py:144-284 | a permitted operation from the right status takes effect, any other changes nothing |
| Memberships.ActiveOwnerRemains | packages/application/src/workflowforge_application/authorization/policy.py:144-284 | over every run of guarded operations an organization that starts with an active owner keeps one |
| Memberships.NonOwnersNeverTouchOwners | packages/application/src/workflowforge_application/authorization/policy.py:144-254 | runs of non-owner actors leave every owner membership unchanged and create none |
| Cases.ApplyKeepsAgreement | packages/domain/src/workflowforge_domain/cases.py:154-217 | every accepted transition keeps the metadata agreement, identity and creation data and raises the version by one |
| Cases.ActionTakesEffect | packages/domain/src/workflowforge_domain/cases.py:154-217 | closing, reopening and archiving set status and their own metadata and no text, an update the texts and no status |
| Cases.RefusedIff | packages/domain/src/workflowforge_domain/cases.py:154-217 | exactly when a command is refused, and with which error |
| Cases.DecidedBy | packages/application/src/workflowforge_application/cases.py:431-502 | exactly when a command is denied, not found, conflicting or handed to the case, which is its own organization's |
| Cases.CaseService.Handle | packages/application/src/workflowforge_application/cases.py:431-502 | permission, lock, version check, transition, audit: what is returned is stored, and a refusal changes nothing |
| Cases.SqlAlchemyCaseRepository.Update | packages/infrastructure/src/workflowforge_infrastructure/cases.py:241-265 | only the row of the case can change, and only over the expected version; the argument is returned whether or not it did |
| Cases.MetadataAlwaysAgrees | packages/domain/src/workflowforge_domain/cases.py:154-217 | in every reachable state closed and archived metadata agree with the status |
| Cases.CommitsCountUp | packages/application/src/workflowforge_application/cases.py:232-253 | the i-th committed command on a case carried lock version i |
| Cases.ArchivedHasNoExit | packages/domain/src/workflowforge_domain/cases.py:189-217 | an archived case stays archived through every run and accepts only being archived again |
| Cases.UpdateIsTruthfulIff | packages/infrastructure/src/workflowforge_infrastructure/cases.py:241-265 | the conditional update reports what is stored exactly when the expected version is still there |
| Cases.UnlockedUpdatesAreLost | packages/infrastructure/src/workflowforge_infrastructure/cases.py:205-265 | without the row lock the second of two accepted updates is lost and still reports success |
| Cases.LockedUpdatesConflict | packages/application/src/workflowforge_application/cases.py:494-502 | with the lock it is refused as a conflict |

## Left out

- FailuresAreBounded: counts runs without a success clearing the counters, since a success resets the window by design.
- StartUserSession: authentication before and the token pair returned after the cited lines are not modelled, nor is the audit port beyond its entries.
- RetryDeliversIff: takes an upload stream as one-shot, so that reading it a second time finds it empty.
- ReadRefresh: lookup, revocation of a replay and its commit are one step, with the clock read in that step.
- Revocations overlapping an uncommitted rotation under read-committed isolation: each write phase is one atomic step.
- Concurrent first uses and concurrent retries of one idempotency key: covered by the safety results; the replay results need a settled key or atomic reservations and retries, because RaceReplacesOutcome and RetryReopensOutcome show they fail otherwise.
- Two requests writing one idempotency record at the same time: apart from taking a retry back, loading the row and flushing it is one step, so no column keeps one writer's value beside the other's.
- Database and audit failures, the audit port's storage, and `expires_at` of idempotency records, which no code reads.
- Password checking, JWT encoding and verification, Argon2, SHA-256 and random generators.
- Document versions beyond the first, artifacts as objects, downloads, list queries and projections.
- DOCX, text and HTML content validation, filename normalization and multipart parsing.
- Case comments, tasks, decisions, documents and batches: simpler copies of the same versioned pattern.
- Parsing Python imports out of source text; a file's imports, or its syntax error, are inputs.
- Routes, schemas, dependency wiring, settings beyond positive limits, logging, and the web client.
