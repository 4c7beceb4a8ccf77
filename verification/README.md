# Verified models of hohu-admin

This project models the parts of hohu-admin where a mistake is hard to see from any one function:
protocols that several processes run at once, rules evaluated over whole trees and role sets, counters that
expire, reconcilers that must reach a fixed point, and state machines over durable rows. Each module states what the code
promises over every input, every run or every reachable state, and Dafny proves it.
`dafny verify dfyconfig.toml` checks the whole project.

## How it is laid out

| module | models |
|---|---|
| `Options` | a value that may be absent |
| `Text` | decimal numerals, splitting, anchored substring search, first-occurrence replacement, stripping |
| `DeptTree` | departments with a comma-joined `ancestors` path, the `LIKE '%,id,%'` query, creating and moving |
| `DataScope`, `ScopeAudit` | the role-union resolver, the two rules it replaced, the upgrade audit |
| `MigrationGraph` | the release check of the Alembic chain: reading, head test, depth-first search |
| `Artifacts`, `ArtifactProtocol`, `ArtifactBackends`, `ArtifactSolo` | owned artifacts: the concurrent file protocol, both storage backends one call at a time, and why the first refines the second |
| `TimedCounters`, `EmailVerification` | counting keys with expiry, the request limiter, e-mail challenges |
| `TenantAuthority` | the tenant version trigger and worker envelopes |
| `PlatformAudit` | the append-only platform audit log, its checks and triggers |
| `ActionSweep` | the sweep over prepared AI actions, among approvals, claims and completions |
| `MenuSync` | menu catalogue synchronisation |
| `Scheduler` | job ids and the reload of the job table |
| `ReleaseRemote` | tag creation, evidence and manifest upload, publication against a create-only remote |
| `IdentityDigest` | canonical JSON, streamed row digests, whole against tenant-scoped reading |

Conventions. SHA-256, HMAC and key derivation are function parameters; injectivity is required only by the
lemmas that name it. Redis runs on a whole-second clock on which TTL is exact. Concurrent code is a state
machine with one step per system call or per database transaction: any number of processes interleave, stop
or die between steps. Code that works in place on its own state is a class or a method with a loop, proved
against a specification function. Text is a sequence of characters; patterns and encodings are ASCII where
the code's are.

## What the proofs showed about the code

- Joining data scopes is not unconditional: resolving a concatenation of role lists equals the join of the
  separate resolutions exactly when both lists contribute something or neither does, or some role covers
  "self" anyway (`UnionOfConcat`; `JoinCanDiffer` gives an input where the join differs).
- The upgrade to the union can take departments away: a leftover department grant of a non-CUSTOM role
  counted under the old API rule whenever the widest role was CUSTOM. `LegacyApiWithinUnion` gives the exact
  condition, `SomethingCanBeLost` the input.
- The final "disconnected" test of the migration check rejects exactly the graphs whose cycles the head does
  not reach; a unique head of an acyclic graph reaches everything.
- Whatever the timing, in any half-open stretch of the window a limiter lets through at most 2L - 1 requests,
  and exactly that many in the worst case (`WorstTiming`); 2L needs both ends of the stretch. For e-mail
  verification that is 59 (60).
- A platform audit completion may carry a NULL status code: `status_code BETWEEN 100 AND 599` is then NULL,
  and a check constraint refuses only what is false (`CompletedStatusMayBeNull`, and `NullStatusIsStored`
  for the history that stores one).
- A second menu synchronisation inserts nothing exactly when no catalogue entry has an empty key; one
  button without a permission makes the whole run fail, since its row cannot be built.
- Job ids print and parse back, but `int()` also reads digit groups (`1_2`), so a foreign id such as
  `job_1_1_2` counts as job 12 of tenant 1 and survives the clean-up. From a table holding only printed ids this never
  arises, and every operation keeps such a table.
- One prepared action can stop a whole sweep: when its operation log belongs to another user or is a still
  running write, closing it raises, and nothing in the loop catches that (`AbortIsExact`; `AbortIsReachable`
  gives the run, `Cleaner.Clean` the exact condition for a whole sweep).
- A process that dies inside the artifact writer block leaves the lock for good, and with it the directory
  frozen: every later call is refused (`DeathOrphansLock`, `OrphanedLockFreezes`). There are exactly two more
  ways: failing to unlink the lock, and a creation of it that raises after taking effect (`OnlyLeaksOrphan`).
- A save that raises between its two links blocks its key: the manifest without a payload refuses every later
  call, the same save and the delete included (`SavesExactly`, `DeletesExactly`).
- The digest comparison of one database state agrees with the null and orphan counts whatever the hash: it
  adds information only between two readings.

## Model

| member | source | states |
|---|---|---|
| `DeptTree.MatchesIsAncestry` | app/utils/data_scope.py:490-493 | in a consistent tree the `,id,` substring query matches a row exactly when id is one of its ancestors by parent links; no decimal prefix or suffix ever matches |
| `DeptTree.SubIdsIsSubtree` | app/utils/data_scope.py:478-499 | the query's result is the chosen departments with all their descendants |
| `DeptTree.SubIdsIsClosure` | app/utils/data_scope.py:488-499 | the query is extensive, monotone and idempotent |
| `DeptTree.AncestorIdsAreAncestors` | app/modules/system/service/dept_service.py:141-147 | parsing a path back to ids yields exactly the ancestors in the tree |
| `DeptTree.SelectedAreDescendants` | app/modules/system/service/dept_service.py:1309-1318 | the rows selected for rewriting by their text are exactly the proper descendants |
| `DeptTree.RewriteKeepsConsistency` | app/modules/system/service/dept_service.py:1062-1071 | after replacing the first occurrence of the old prefix in every selected path, every path is again the comma-joined parent chain |
| `DeptTree.LinksDeterminePaths` | app/modules/system/service/dept_service.py:957-960 | parent links alone determine every stored path, so paths carry no second truth |
| `DeptTree.DeptTable.Create` | app/modules/system/service/dept_service.py:951-970 | refuses a missing parent; otherwise adds one row whose path extends its parent's, and the table stays consistent |
| `DeptTree.DeptTable.UpdateDescendants` | app/modules/system/service/dept_service.py:1299-1321 | the loop rewrites the path of every selected row and touches no other row or link |
| `DeptTree.DeptTable.Move` | app/modules/system/service/dept_service.py:1035-1072 | refused exactly for a missing row, a move to the present parent, or a move to or below itself (the refusals at lines 679 to 721); otherwise only the moved department's link changes and every path is the parent chain again |
| `DataScope.UnionOfConcat` | app/utils/data_scope.py:144-226 | resolving two role lists together equals joining their resolutions if and only if both contribute or neither does, or some role of either is R_SUPER, ALL or SELF or grants no department |
| `DataScope.JoinCanDiffer` | app/utils/data_scope.py:144-226 | the input for which it does not: one department role, resolved together with no role |
| `DataScope.UnionIsInhabited` | app/utils/data_scope.py:409-421 | every bounded resolution grants a department or includes self |
| `DataScope.CombinedIsByKind` | app/utils/data_scope.py:157-226 | accumulating by the kinds present, as the code does, equals joining role by role |
| `DataScope.CollectGrants` | app/utils/data_scope.py:70-93 | the loop over CUSTOM roles unites their enabled grants and notices an empty one |
| `DataScope.ResolveKinds` | app/utils/data_scope.py:157-226 | the branch-by-branch accumulation computes the per-kind scope |
| `DataScope.ResolveForRoles` | app/utils/data_scope.py:144-226 | refuses resources of another tenant, exactly; otherwise unbounded exactly for an enabled R_SUPER or ALL, a department exactly when some enabled role opens it by belonging, by ancestry in the tree or by grant, self exactly when a role says so or opens nothing or no role counts, and the kinds reported |
| `DataScope.UnionIsOnTree` | app/utils/data_scope.py:185-211 | the union of contributions is, role by role, what parent links and grants say |
| `ScopeAudit.GetBestScope` | app/utils/data_scope.py:241-256 | returns the widest kind among the enabled roles, at least SELF |
| `ScopeAudit.BestIsUnique` | app/utils/data_scope.py:241-256 | that kind is unique |
| `ScopeAudit.BestIsByOrder` | app/utils/data_scope.py:243-256 | the widest kind is the first present of ALL, DEPT_AND_SUB, DEPT, CUSTOM, and SELF otherwise |
| `ScopeAudit.LegacyApiOnTree` | app/utils/data_scope.py:268-320 | what the legacy API rule opens, on the tree: only the widest kind, any enabled role's grants for CUSTOM, and self exactly when that is nothing |
| `ScopeAudit.LegacyAiOnTree` | app/utils/data_scope.py:332-378 | what the legacy AI rule opens, on the tree: self always, and the own departments for SELF |
| `ScopeAudit.VisibleUsersAre` | app/utils/data_scope.py:96-126 | the users shown are the members of the opened departments, and the holder when self is included |
| `ScopeAudit.UnionFilterIsExact` | app/utils/data_scope.py:385-421 | a row passes the filter exactly when it is unbounded, its department is granted, or it is the principal's own and self is included: the fallback is never taken |
| `ScopeAudit.FewRolesNeverExpand` | app/utils/data_scope.py:259-378 | with at most one enabled role the union equals the legacy API scope and lies within the legacy AI scope |
| `ScopeAudit.LegacyApiWithinUnion` | app/utils/data_scope.py:259-320 | the legacy API scope lies within the union if and only if the best kind is not CUSTOM, the user is R_SUPER, or all enabled grants belong to CUSTOM roles |
| `ScopeAudit.NothingIsLost` | app/utils/data_scope.py:259-320 | when only CUSTOM roles hold grants, every principal keeps every department and user it saw |
| `ScopeAudit.SomethingCanBeLost` | app/utils/data_scope.py:447-475 | the input for which it does not: a SELF role with a leftover grant |
| `ScopeAudit.FilteredUserNeverExpands` | tools/ops/audit_data_scope_union.py:210-214 | the filter on two enabled roles hides no principal whose view grows |
| `ScopeAudit.Compare` | tools/ops/audit_data_scope_union.py:234-266 | one report line lists exactly the departments and users added over each legacy rule; it counts as an expansion exactly when one list is non-empty |
| `ScopeAudit.BuildReport` | tools/ops/audit_data_scope_union.py:187-311 | one exact line per examined user in order, and the expansion count is that of all users, filtered or not |
| `MigrationGraph.OrderedIsAcyclic` | tools/ops/product_release_sources.py:461-477 | a listing with parents first, covering the graph, rules out every cycle |
| `MigrationGraph.AscentCloses` | tools/ops/product_release_sources.py:456-460 | a finite set in which everything has a child holds a cycle |
| `MigrationGraph.UnvisitedHoldsCycle` | tools/ops/product_release_sources.py:475-477 | whatever the walk leaves unvisited holds a cycle out of the head's reach |
| `MigrationGraph.HeadReachesAll` | tools/ops/product_release_sources.py:456-477 | in an acyclic graph with defined parents the only head reaches every revision |
| `MigrationGraph.ReadGraph` | tools/ops/product_release_sources.py:418-455 | accepts exactly well-formed migrations with distinct revisions and builds their parent map |
| `MigrationGraph.EdgesAreDeclared` | tools/ops/product_release_sources.py:437-455 | the graph read has an edge from a revision to a parent if and only if some file declares that revision with that name, alone or in a tuple |
| `MigrationGraph.ReadableMeans` | tools/ops/product_release_sources.py:438-454 | which files are readable, exactly: distinct non-empty revisions whose parent is none, one or several non-empty names |
| `MigrationGraph.Walker.Walk` | tools/ops/product_release_sources.py:464-472 | terminates; extends a parents-first order of visited revisions, or stops at a real cycle reached from where the search began |
| `MigrationGraph.NoVisitedCycle` | tools/ops/product_release_sources.py:461-474 | a search that ended leaves no cycle within the head's reach |
| `MigrationGraph.Verify` | tools/ops/product_release_sources.py:406-477 | accepts if and only if the chain is readable, every parent is defined, the graph is acyclic and the expected revision is its only head; each refusal is given exactly: a cycle is found if and only if the head reaches one, the final test refuses if and only if there are cycles and it reaches none |
| `MigrationGraph.ChainIsSound` | tools/ops/product_release_sources.py:456-477 | a linear chain with distinct non-empty names passes every test at its last revision |
| `ArtifactProtocol.NextKeepsInv` | app/core/file_storage.py:244-355 | every step of every process, death or exception keeps the directory and every process's knowledge consistent |
| `ArtifactProtocol.NothingIsReplaced` | app/core/file_storage.py:244-265 | in any directory, no step replaces a file that is there, except a manifest by its retirement |
| `ArtifactProtocol.OnlyLeaksOrphan` | app/core/file_storage.py:267-280 | a step leaves the lock without a holder if and only if a process dies inside the writer block, the unlinking of the lock fails, or its creation raises after taking effect |
| `ArtifactProtocol.LockHasHolder` | app/core/file_storage.py:276-280 | over every run without one of the three, whatever else raises, a lock that exists has a process inside the writer block that will release it |
| `ArtifactProtocol.RaisedIsRefused` | app/core/file_storage.py:300-355 | a call that raised anywhere, with or without effect, never reports success later in the run |
| `ArtifactProtocol.ArtifactIsImmutable` | app/core/file_storage.py:300-355 | over every run the linked manifest keeps identity, size and hash; the payload is linked at most once; retirement is permanent |
| `ArtifactProtocol.ResultsStay` | app/core/file_storage.py:300-355 | a finished call stays finished with its result |
| `ArtifactProtocol.ReadsAgree` | app/core/file_storage.py:324-332 | any two successful reads of a run return the same bytes, and the manifest hashes them |
| `ArtifactProtocol.SavedIsRead` | app/core/file_storage.py:300-332 | with an injective digest every read, at any time, returns the bytes a successful save was given |
| `ArtifactProtocol.RetirementIsFinal` | app/core/file_storage.py:334-355 | once retired, nothing that starts later succeeds in saving, reading or identifying, nor does a save still undecided; the payload is never linked again |
| `ArtifactProtocol.OneDeleteWins` | app/core/file_storage.py:347-355 | across all deletes of a key at most one reports True, also after one that failed between retiring and unlinking |
| `ArtifactProtocol.DeathOrphansLock` | app/core/file_storage.py:267-280 | a process dying inside the writer block leaves the lock with no owner |
| `ArtifactProtocol.OrphanedLockFreezes` | app/core/file_storage.py:267-280 | from then on the directory never changes and every later call is refused |
| `ArtifactBackends.LocalFileStorage.SaveArtifact` | app/core/file_storage.py:300-318 | answers and leaves state exactly as the ledger meaning of a save |
| `ArtifactBackends.LocalFileStorage.ReadArtifact` | app/core/file_storage.py:324-332 | answers as the ledger meaning of a read |
| `ArtifactBackends.LocalFileStorage.DeleteArtifact` | app/core/file_storage.py:334-355 | retires, unlinks and answers as the ledger meaning of a delete |
| `ArtifactBackends.MockFileStorage.SaveArtifact` | app/core/file_storage.py:401-411 | the same meaning over the two dictionaries |
| `ArtifactBackends.MockFileStorage.DeleteArtifact` | app/core/file_storage.py:428-436 | the same meaning over the two dictionaries |
| `ArtifactBackends.Replay` | app/core/file_storage.py:300-436 | on every sequential history both backends give the same result or the same refusal to every call |
| `ArtifactBackends.LiveAnswers` | app/core/file_storage.py:401-426 | after any history, a first save succeeds, saving the same bytes again too, bytes of another digest are refused, and the owner reads what was saved |
| `ArtifactBackends.StrangersAreRefused` | app/core/file_storage.py:421-436 | nobody else reads or deletes an artifact, and what was never saved cannot be read, identified or deleted |
| `ArtifactBackends.DeletedAnswers` | app/core/file_storage.py:428-436 | the owner's first delete reports the payload removed, later ones that it was gone, and nothing reads, identifies or saves it again |
| `ArtifactSolo.EveryStepProgresses` | app/core/file_storage.py:300-355 | every step that neither raises nor dies brings a call closer to its end |
| `ArtifactSolo.SoloCallIsSequential` | app/core/file_storage.py:300-355 | alone and undisturbed, a call of the concurrent protocol returns what the sequential backend returns and leaves its directory |
| `ArtifactSolo.SavesExactly` | app/core/file_storage.py:300-318 | what a save does from any directory, whatever interrupted calls left: both files into an empty one; otherwise nothing, succeeding exactly when both files agree and are what it would write |
| `ArtifactSolo.ReadsExactly` | app/core/file_storage.py:324-332 | what a read does from any directory: the payload exactly when manifest, key, size, digest and owner agree and it is not retired |
| `ArtifactSolo.IdentifiesExactly` | app/core/file_storage.py:320-322 | the same for an identity query, whoever asks |
| `ArtifactSolo.DeletesExactly` | app/core/file_storage.py:334-355 | what a delete does from any directory: it retires what agrees or finishes an interrupted retirement, reports whether a payload was left, and refuses anything else |
| `TimedCounters.AtMostLimitPerLifetime` | app/middleware/rate_limit_middleware.py:21-25 | for every timing of the requests, each lifetime of the key allows at most `limit` |
| `TimedCounters.AtMostTwicePerStretch` | app/middleware/rate_limit_middleware.py:21-25 | for every timing of the requests, any window-long stretch allows at most 2 * limit - 1, and 2 * limit with both ends counted |
| `TimedCounters.RunIsHistory` | app/middleware/rate_limit_middleware.py:21-25 | whatever the timing, what the script lets through is a log of lifetimes a window apart whose counts rise to the limit |
| `TimedCounters.IncrTracks` | app/middleware/rate_limit_middleware.py:21-25 | one run of the script keeps the stored key in step with the history of allowed requests |
| `TimedCounters.CountAndExpire` | app/middleware/rate_limit_middleware.py:22-23 | INCR and the conditional EXPIRE compute the counter's next state |
| `TimedCounters.Throttle.Consume` | app/middleware/rate_limit_middleware.py:28-29 | one more request time; it is let through exactly when the script's run over all of them says so |
| `TimedCounters.WorstTiming` | app/middleware/rate_limit_middleware.py:21-29 | the bound is tight: for every limit and window of at least two seconds some timing reaches 2 * limit - 1 |
| `EmailVerification.IssueScript` | app/modules/auth/email_verification.py:13-19 | refuses exactly during the cooldown; otherwise a fresh challenge, a fresh cooldown, no attempts, the total untouched |
| `EmailVerification.VerifyScript` | app/modules/auth/email_verification.py:20-31 | accepts exactly a held, matching code within both limits, and leaves the four keys as specified in every branch |
| `EmailVerification.IssueKeepsSound` | app/modules/auth/email_verification.py:13-19 | an issue, refused or not, keeps every promise: a held challenge is the last issue's digest and expiry |
| `EmailVerification.SubmissionKeepsSound` | app/modules/auth/email_verification.py:20-31 | a submission, compared or not, keeps every promise about the history |
| `EmailVerification.EmailChallenge.Issue` | app/modules/auth/email_verification.py:74-98 | one more event; the keys are where the whole history leads, and it succeeds exactly outside the cooldown |
| `EmailVerification.EmailChallenge.Consume` | app/modules/auth/email_verification.py:100-115 | one more event; the keys are where the whole history leads, and it succeeds exactly when the script accepts |
| `EmailVerification.EveryHistoryIsSound` | app/modules/auth/email_verification.py:13-31 | from empty keys, every sequence of issues, submissions and waits keeps every promise |
| `EmailVerification.EveryHistoryKeepsLimits` | app/modules/auth/email_verification.py:13-31 | over every such history a code is compared at most 5 times and accepted at most once, and issues are 60 seconds apart |
| `EmailVerification.EveryComparisonIsGenuine` | app/modules/auth/email_verification.py:20-31 | over every history a submission is compared only within the lifetime of the last code issued, and accepted if and only if it carries that code's digest |
| `EmailVerification.EveryHourIsLimited` | app/modules/auth/email_verification.py:25-27 | over every history any hour sees at most 59 comparisons, 60 with both ends counted |
| `EmailVerification.CooldownIsExact` | app/modules/auth/email_verification.py:14-18 | after every history a new code is refused exactly within 60 seconds of the last |
| `EmailVerification.RightCodeIsAccepted` | app/modules/auth/email_verification.py:20-31 | after every history a code issued now and submitted within its lifetime, after at most four wrong tries and within the hourly 30, is accepted; wrong tries leave it valid |
| `TenantAuthority.TenantTable.Attempted` | alembic/versions/d01010100101_squash_to_head.py:115-146 | a statement goes through exactly when it keeps the code, does not lower the version, and leaves an admissible row with the version it is due; a refused one changes nothing |
| `TenantAuthority.VersionsRise` | alembic/versions/d01010100101_squash_to_head.py:119-131 | over any sequence of statements a row keeps its code, its version never falls, and rises whenever its security facts differ |
| `TenantAuthority.EnabledIsActive` | alembic/versions/d01010100101_squash_to_head.py:1076-1101 | over every history a row is enabled exactly while active, and then bootstrapped |
| `TenantAuthority.EnvelopeSeesNoChange` | app/core/tenant.py:296-333 | an envelope that revalidates meets the same row, whose status, lifecycle, bootstrap and code never differed in between, disable and re-enable included |
| `TenantAuthority.ReenabledIsNoticed` | app/core/tenant.py:310-323 | the history that shows it: disabled and enabled again, whatever versions are asked for, the row is two versions on and the old envelope fails |
| `TenantAuthority.RevalidationReturnsAuthority` | app/core/tenant.py:270-333 | a minted envelope revalidates if and only if the row still matches, is enabled and in the rollout, and returns exactly the authority it was minted from |
| `TenantAuthority.AlteredEnvelopeFails` | app/core/tenant.py:259-307 | with an injective MAC no field of an envelope can change under its signature |
| `PlatformAudit.AuditLog.Execute` | alembic/versions/d01010100101_squash_to_head.py:24-43 | updates and deletes are refused; an insert is accepted exactly when every check, the lineage trigger and both keys allow it |
| `PlatformAudit.AcceptsExactly` | alembic/versions/d01010100101_squash_to_head.py:1147-1173 | which rows an insert adds, without three-valued logic: the fields each event may carry, and for a completion an authorization agreeing on the lineage that no other row names |
| `PlatformAudit.InsertKeepsSound` | alembic/versions/d01010100101_squash_to_head.py:76-112 | an accepted insert leaves every completion traced to its one authorization |
| `PlatformAudit.HistoryOnlyGrows` | alembic/versions/d01010100101_squash_to_head.py:24-43 | over every sequence of statements accepted rows stay, unchanged, and the log is sound |
| `PlatformAudit.CompletionsAreTraced` | alembic/versions/d01010100101_squash_to_head.py:1858-1864 | a completion points for good to one authorization agreeing on every lineage field, which no other completion shares |
| `PlatformAudit.CompletedStatusMayBeNull` | alembic/versions/d01010100101_squash_to_head.py:1147-1150 | which completions the event check lets through, exactly: those without a status code too |
| `PlatformAudit.NullStatusIsStored` | alembic/versions/d01010100101_squash_to_head.py:1147-1170 | the history that stores one: an authorization and its completion without a status code, both accepted |
| `ActionSweep.TransitionMovesForward` | app/modules/ai/service/prepared_action_service.py:637-783 | any transition moves rows forward: next version, higher rank, terminal rows untouched |
| `ActionSweep.LegalByTarget` | app/modules/ai/service/prepared_action_service.py:83-101 | the transition table read target by target |
| `ActionSweep.EndsOfExecution` | app/modules/ai/service/prepared_action_service.py:667-774 | who may end an execution, exactly: by owner, kept claim and lease cutoff; and the row it leaves |
| `ActionSweep.ClaimStartsExecution` | app/modules/ai/service/prepared_action_service.py:699-708 | a claim on an approved action makes it running under its owner and lease |
| `ActionSweep.HistoryMovesForward` | app/modules/ai/service/prepared_action_service.py:83-101 | over every run no status is revisited, and terminal actions and terminal operation logs never change |
| `ActionSweep.OneWinnerPerVersion` | app/modules/ai/service/prepared_action_service.py:740-754 | of two transitions anywhere in a run that expect the same version of a row, one wins |
| `ActionSweep.VisitClosesBoth` | app/modules/ai/lifecycle.py:202-306 | a committed visit closes one action and, in the same commit, its log: a pending one to expired, a running one to failed, with the action's reason; it changes nothing else |
| `ActionSweep.AbortIsExact` | app/modules/ai/lifecycle.py:276-298 | a visit raises exactly when it would close an action whose log is another user's, or a write's that still runs |
| `ActionSweep.AbortIsReachable` | app/modules/ai/lifecycle.py:121-298 | for every such log a run in which the sweep ends there, with an expired pending it had still to visit left open |
| `ActionSweep.SweepTransitions` | app/modules/ai/lifecycle.py:121-306 | over every interleaving a sweep only takes pending to expired, when it had expired or its source was looked up and found invalid, and registered reads from approved, or running without a live lease, to failed; the periodic mode never touches approved or unexpired actions |
| `ActionSweep.ReasonIsTrue` | app/modules/ai/lifecycle.py:236-257 | in every run the recorded error code says what was the case when the action was closed |
| `ActionSweep.LiveExecutionIsSpared` | app/modules/ai/lifecycle.py:214-235 | an action held by a protocol owner or under a live lease is never changed by a sweep, however stale its candidate list |
| `ActionSweep.CountsAreExact` | app/modules/ai/lifecycle.py:121-325 | over every run a sweep's count is the number of distinct actions it closed, no action closed by two sweeps, plus the number of distinct running claims whose reconciliation reported a change |
| `ActionSweep.ReconciledIsCounted` | app/modules/ai/lifecycle.py:130-165 | a sweep counts a running claim exactly when it is a well-formed database one whose reconciliation changed it, and cleans no protocol owner's execution |
| `ActionSweep.Cleaner.VisitRow` | app/modules/ai/lifecycle.py:207-298 | the transaction's checks in order compute the specified visit |
| `ActionSweep.Cleaner.Clean` | app/modules/ai/lifecycle.py:121-325 | a whole sweep with nothing else running raises if and only if some due row is blocked; raised or not, it has closed exactly the due rows it came to, with their logs, and counted them, and touched nothing else |
| `ActionSweep.SecondSweepClosesNothing` | app/modules/ai/lifecycle.py:69-325 | after a finished sweep nothing is due |
| `ActionSweep.WhatIsLeftOpen` | app/modules/ai/lifecycle.py:166-259 | exactly which rows a finished startup sweep leaves as they were |
| `ActionSweep.WhatIsLeftPeriodically` | app/modules/ai/lifecycle.py:223-259 | exactly which rows a finished periodic sweep leaves as they were: all but expired pendings and reads whose lease ran out |
| `ActionSweep.WhatIsClosed` | app/modules/ai/lifecycle.py:236-275 | the row a sweep leaves of what it closed: status, reason, next version, no owner, no lease |
| `MenuSync.MenuTable.Pass` | scripts/sync_menus.py:289-313 | one pass inserts entries whose parent is known, defers the rest and loses none, or raises at a button without a permission |
| `MenuSync.MenuTable.Sync` | scripts/sync_menus.py:280-313 | terminates; succeeds if and only if every missing entry's parent chain reaches "0" or an existing route and no missing button lacks a permission, and then inserts each once |
| `MenuSync.EachPlaced` | scripts/sync_menus.py:297-310 | which row each inserted entry became, and that its parent's row was there first |
| `MenuSync.InsertedRowCarries` | scripts/sync_menus.py:297-302 | an inserted button carries its permission and no route, anything else its route |
| `MenuSync.InsertionsAreFresh` | scripts/sync_menus.py:280-288 | with unique catalogue keys no inserted row repeats a route |
| `MenuSync.ParentsAreByName` | scripts/sync_menus.py:297-310 | after a successful run with unique routes each inserted row hangs under the table's one row of its parent's route, which stands before it |
| `MenuSync.ParentsIgnoreOrder` | scripts/sync_menus.py:280-313 | two successful runs over reordered catalogues hang the same entry at the top, under the same old row, or under the row of the same inserted entry |
| `MenuSync.SecondRunInsertsNothing` | scripts/sync_menus.py:265-288 | after a successful run a second one inserts nothing if and only if no catalogue entry has an empty key |
| `MenuSync.CatalogueOrderIsIrrelevant` | scripts/sync_menus.py:280-313 | reordering the catalogue changes neither success nor the entries inserted |
| `Scheduler.IdRoundTrip` | app/core/scheduler.py:241-243 | parsing a printed job id gives the job back, negative numbers included |
| `Scheduler.ParsingIsLenient` | app/core/scheduler.py:239-246 | ids with a further numeral parse to a job although no job prints them |
| `Scheduler.SuffixIsExact` | app/core/scheduler.py:205-209 | the suffix test of removal matches a printed id if and only if it is that job's |
| `Scheduler.PrintedIdsAreRetainedIffLive` | app/core/scheduler.py:239-249 | the first pass keeps a printed id if and only if its job is enabled and a tenant task |
| `Scheduler.ReloadLeavesLiveJobs` | app/core/scheduler.py:224-286 | after a reload exactly enabled tenant jobs are registered: an unchanged trigger keeps its entry and next run time, a new or changed one gets a fresh entry with the job's own arguments, a broken one stays as it was, other entries are untouched |
| `Scheduler.AlignedIsExact` | app/core/scheduler.py:233-286 | the description of a reload determines the resulting table |
| `Scheduler.SecondReloadIsNoOp` | app/core/scheduler.py:269-271 | a second reload from the same database changes nothing, next run times included |
| `Scheduler.Manager.AddJob` | app/core/scheduler.py:189-201 | registers or replaces one entry, does nothing for a disabled job, raises on a broken trigger |
| `Scheduler.Manager.RemoveJob` | app/core/scheduler.py:203-212 | from printed ids, removes that job in every tenant and nothing else |
| `Scheduler.Manager.RunNow` | app/core/scheduler.py:296-304 | registers outside the managed ids |
| `Scheduler.Manager.DropStale` | app/core/scheduler.py:233-249 | the first loop drops exactly the managed entries whose id does not parse to a live job |
| `Scheduler.Manager.Reload` | app/core/scheduler.py:224-294 | both loops leave the table aligned with the database; unchanged triggers and foreign ids untouched |
| `ReleaseRemote.OneOwner` | tools/ops/release_tag.py:59-76 | a tag has at most one owner: the stripped message determines the run, the object the commit |
| `ReleaseRemote.NextKeepsInv` | tools/ops/release_build.py:408-473 | every call, acknowledged or not, keeps what every invocation relies on |
| `ReleaseRemote.RemoteOnlyGrows` | tools/ops/release_tag.py:81-88 | over every run nothing stored is overwritten or removed, and a returned invocation stays as it returned |
| `ReleaseRemote.ConfirmationsAgree` | tools/ops/upload_product_release.py:57-71 | a confirmed upload's bytes are the public release's, then and later; two confirmations for one tag agree byte for byte |
| `ReleaseRemote.UploadWritesOnce` | tools/ops/upload_product_release.py:42-56 | once past its upload, committed or not, acknowledged or not, an invocation never uploads again |
| `ReleaseRemote.OneOutcome` | tools/ops/upload_product_release.py:24-71 | given what the remote answers, each step has one outcome: the runs below are what happens |
| `ReleaseRemote.UploadGetsDone` | tools/ops/upload_product_release.py:41-71 | from any remote with room for it, an upload running alone uploads once and confirms its bytes, whether the committed write is acknowledged or not |
| `ReleaseRemote.UnstoredUploadFails` | tools/ops/upload_product_release.py:55-60 | an upload acknowledged but not stored is not confirmed |
| `ReleaseRemote.StoredManifestIsConfirmed` | tools/ops/upload_product_release.py:41-64 | what is already stored is confirmed without a write |
| `ReleaseRemote.OtherManifestIsRefused` | tools/ops/upload_product_release.py:61-64 | other bytes under the name are refused and stay |
| `ReleaseRemote.PrereleaseIsRefused` | tools/ops/upload_product_release.py:34-40 | without a public release that is not a prerelease an upload is refused |
| `ReleaseRemote.PublicOnlyAfterEvidence` | tools/ops/release_build.py:459-464 | in every run the step that makes a release public finds both evidence files stored with exactly its bytes and the tag its own |
| `ReleaseRemote.PublicationsAgree` | tools/ops/release_build.py:429-473 | two publications returned for one tag had the same commit, run, record and evidence, and the release holds them |
| `ReleaseRemote.PublishGetsDone` | tools/ops/release_build.py:429-473 | a publish that owns its tag, running alone, creates a release, stores both files and makes it public holding exactly them |
| `ReleaseRemote.RepublishIsConfirmed` | tools/ops/release_build.py:443-473 | publishing again what is public with both files stored succeeds without a write; another stored record refuses it |
| `ReleaseRemote.UnstoredFileIsRefused` | tools/ops/release_build.py:415-426 | evidence acknowledged but not stored is refused |
| `ReleaseRemote.OneOwnerPerTag` | tools/ops/release_tag.py:48-88 | over every run at most one (commit, run) pair is ever seen to own a tag |
| `ReleaseRemote.CreateGetsDone` | tools/ops/release_tag.py:81-88 | creating a tag that does not exist ends with it owned by this commit and run |
| `ReleaseRemote.ForeignTagIsRefused` | tools/ops/release_tag.py:64-75 | a tag of another commit or run is refused and stays |
| `ReleaseRemote.TagIsChecked` | tools/ops/release_tag.py:76-80 | a check passes on a missing or own tag, a verification needs it |
| `IdentityDigest.EncodeIsPrefixFree` | app/core/tenant_isolation_audit.py:227-233 | canonical JSON is self-delimiting and injective on nulls, strings and lists |
| `IdentityDigest.PlainText` | app/core/tenant_isolation_audit.py:227-233 | text without quotes, backslashes and controls stands unchanged between quotes |
| `IdentityDigest.IdentityText` | app/core/tenant_isolation_audit.py:652-656 | the text hashed for a row: table, tenant or null, key, in one list |
| `IdentityDigest.StreamIsCanonical` | app/core/tenant_isolation_audit.py:641-659 | feeding row by row feeds exactly the canonical list |
| `IdentityDigest.Snapshot` | app/core/tenant_isolation_audit.py:641-659 | one pass returns the count and the digest of the canonical list |
| `IdentityDigest.ScopeLeavesOut` | app/core/tenant_isolation_audit.py:1024-1029 | the scoped reading omits exactly the orphans and, where a tenant is required, the null tenants |
| `IdentityDigest.CompareTable` | app/core/tenant_isolation_audit.py:1021-1035 | over one database state the comparison matches if and only if there is no orphan and, where required, no null tenant |
| `IdentityDigest.CompareReadings` | app/core/tenant_isolation_audit.py:1021-1030 | between two readings, under a hash without collisions, it matches if and only if both are the same rows in the same order |

## Left out

- Sub-second Redis time: TTL rounds to seconds, so the counters are stated on a whole-second clock.
- A challenge lifetime of zero minutes, which Redis refuses: `Issue` asks for at least one.
- The three buckets of the e-mail throttle: each is one `Throttle`; their sequence adds nothing.
- Temporary files, directory creation and fsync of `_publish`: a publication is one atomic link or replace; content that is never linked is not observed.
- Manifests that are not well-formed JSON of the expected fields; in the concurrent runs also foreign files: there the directory starts empty and only the modelled calls write to it.
- A read already past its lock test when the artifact retires may still return the bytes, as in the code: it falls under `ReadsAgree`.
- Owned-key dispatch of `save`, `read`, `delete` and `exists` outside artifacts, and S3.
- Department levels, disabled parents, authority checks and duplicate names when creating or moving: refusals before the modelled change.
- Reading migrations from Git and parsing Python: a migration is its revision and parent literals.
- The inside of `reconcile_prepared_completion`, result projections, the run guard and Redis cleanup in the sweep: steps of others, or without effect on the rows modelled; what reconciling reports is any answer.
- ActionSweep.Cleaner.Clean: the method runs alone on a still clock; interleavings and moving clocks are covered by `SweepTransitions` and `CountsAreExact` over the state machine.
- Partition reconciliation, i18n fill and the two one-shot upgrades of menu synchronisation: single assignments without a fixed point.
- Building triggers: a trigger is the text it prints as, or absent when its configuration does not build one; the added and updated counters are only logged.
- Unicode digits and spaces, and the length limit, of `int()`: job ids are modelled in ASCII.
- Ambiguous assets, notes and HTTP refusals of the release tools: an invocation fails, as an unacknowledged call does; asset names are unique per release.
- UTF-8 in canonical JSON: text stands for its bytes, the encoding being injective.
- Unique-key conflicts, cross links, relationship orphans and schema contracts of the isolation audit: independent counts.
- Canary statistics, image and Git mirrors, the job runner's concurrency check, validators, prompts, seeds, HTTP handlers and command lines: they would add easy members, or rest on policies outside the code.
