# Verified models of the service desk backend

A multi-tenant service desk keeps most of its logic in SQL statements and small in-memory structures. This project
models the parts that are compilers, protocols, counters and arithmetic, statement by statement, and proves what they
promise. `dafny verify dfyconfig.toml` checks everything.

**Filters.** `WhereCompiler` is the compiler from filter objects to WHERE text: it recurses over the object, emits tokens
and pushes bound values onto one shared list. `SqlText` reads such text the way the database does (AND binds tighter
than OR, parentheses group, anonymous placeholders count from the left) and `SqlMeaning` gives the tree three-valued
truth over any tables, under any comparison rules. `WhereCorrectness` defines the meaning of a filter without SQL;
`WhereAcceptance` says from the filter alone which ones compile, `WhereQueries` proves the compiled text has that
meaning, and exactly where it has not, `WhereLinks` answers queries with their tables and columns named, and
`WhereSyntax` proves exactly when the text is SQL at all. `AssetQueries` is the second compiler, inlined in the asset queries, and `QueryScopes` the
builders that feed it. `Probing` splits plain conditions into single comparisons; with it `WhereAlternatives`,
`AssetMeaning` and `ScopeMerging` prove exactly when OR lists, values in each position and merged scopes keep their
meaning under any comparison rules, and `WhereOrders` when OR lists do under the laws that databases obey.

**Protocols.** `SessionRotation` interleaves refresh-token rotations at the granularity of SQL statements.
`MigrationRunner` runs migrations with faults in any query, among them inserts that select from the rows there;
`MigrationStatements` says what each statement does to a schema, with the error numbers and the limit written out;
`MigrationGrowth` proves what every run keeps, `MigrationConvergence` what retries reach, `MigrationDerivations` which
statements decide it, `MigrationLosses` what retries lose or gain for good, and `MigrationBookkeeping` what the
bookkeeping tables say. `PrivacyRequests`, `PrivacyLifecycle` and `OneShotTokens` are the privacy request row, its
interleaved calls, and links that work once. `Inventory` is stock and its ledger.

**Counters and arithmetic.** `Throttle` and `RateLimit` both refine one log of hits (`FixedWindow`). `Recurrence` has the
calendar of ECMA-262, `Quotes` exact reals, `ScopeCache` an insertion-ordered map against a plain store, `Instream` the
scanner's framing, `Cidr` JavaScript's 32-bit operators.

Code that works by changing things is modelled by classes and loops whose contracts name a specification function or the
new state; the properties over runs are lemmas about those functions. Concurrent callers are sequences of atomic
statements in any order.

Several promises hold only under a condition that the code does not enforce. Each has an exact condition here:

- OR alternatives with several keys are flattened into one list of alternatives, and an empty alternative beside others is
  ignored (`AlternativesKeepTheirMeaningExactly`).
- An operator object with two operators compiles only the first (`OperatorObjectKeepsItsMeaningExactly`).
- An empty subfilter compiles to `AND )`, and a filter of empty OR lists to an empty WHERE (`TextIsSqlExactlyWhenGrounded`).
- The asset compiler knows null, `contains` and `in` in some positions only (`PositionKeepsMeaningExactly`); the comment on
  the asset query promises `in` at the top level, where it is compared as an object. Its OR lists flatten alternatives and
  compile null to `= NULL` (`AssetOrKeepsItsMeaningExactly`).
- Merging drops the keys beside a scope's AND list, a lone condition with `in` is compared as an object, and several
  conditions of nothing end in an empty WHERE (`MergeKeepsIntersectionExactly`).
- An index whose column is added by another migration can be lost for good: error 1072 is tolerated and the migration is
  marked as applied (`IndexIsLost`, `RetryConvergesExactly`).
- Rows that a migration selects from the rows of another one depend on which of them failed: a grant can be lost for good
  (`GrantIsLost`) or made although an uninterrupted run never makes it (`GrantIsGained`).
- A migration whose failure row cannot be deleted stays listed as applied and failed (`AppliedAndFailedExactly`).
- A session rotated by presenting its stored hash text leaves the real token dead and its replay unreported
  (`CredentialIsConsumedOnce`).
- A throttle block longer than its window ends with the window (`BlockEndsWithItsWindow`); with limit 0 the first hit of a
  window still passes (`BlockedMeansOverLimitExactly`). The verdict is read after the upsert, so that hits in between can
  refuse a caller within its limit or let one beyond it through (`LateReadFollowsOwnPlaceExactly`).
- Adding months to a day that the target month lacks lands in the month after (`DayOfMonthKeptExactly`).
- A verification can reopen a request closed meanwhile, and a legal hold can miss a completion under way
  (`StatementKeepsExactly` of the privacy lifecycle).
- Concurrent stock movements can overdraw a part (`StatementKeepsSoundExactly`).
- Quote lines beyond the hundredth are dropped after validation (`SubtotalCoversAllExactly`), so that their order counts
  for subtotal, tax and total (`OrderIsIrrelevantExactly`).
- Invalidating a user's cached scopes reaches users whose id starts with that id (`InvalidationReachesExactly`), and the
  cache's comments promise least-recently-used eviction where the code evicts the first key inserted
  (`StepFollowsRecencyExactly`).

## Model

| member | source | states |
|---|---|---|
| WhereCompiler.BuildWhereClauses | backend/src/database/database.service.ts:2783-2835 | The recursive compiler, pushing onto the caller's value list, returns the clauses of the specified compilation and appends exactly its values, in order; or fails with its error |
| WhereCompiler.BuildAlternatives | backend/src/database/database.service.ts:2785-2788 | The OR branch concatenates the clauses and values of all alternatives |
| WhereCompiler.BuildEntry | backend/src/database/database.service.ts:2784-2834 | One key: OR list, relational EXISTS with its own value list, or a column condition |
| WhereAcceptance.FilterRefusal | backend/src/database/database.service.ts:2783-2835 | The first refusal in the order of the filter, found without compiling it: a column whose name is not letters, digits and underscore beginning with no digit, or an alternative or subfilter that is no object |
| WhereAcceptance.CompilesExactly | backend/src/database/database.service.ts:2783-2835 | A filter compiles iff no entry at any depth is unfit in one of these ways |
| WhereAcceptance.IdentifierIsNamed | backend/src/common/security/sql-identifier.ts:3-10 | The identifier test accepts exactly the names written out as character ranges |
| SqlText.ReadBack | backend/src/database/database.service.ts:2783-2835 | Text written from a clean tree is read back as that very tree, with placeholders numbered as emitted |
| SqlMeaning.InListIsMembership | backend/src/database/database.service.ts:2825-2829 | An IN list is TRUE exactly when some listed non-NULL value equals the cell |
| SqlMeaning.ThreeValues | backend/src/database/database.service.ts:2785-2788 | AND is the lesser and OR the greater of two truth values, NULL comparisons between FALSE and TRUE |
| WhereCorrectness.EntryWritten | backend/src/database/database.service.ts:2783-2835 | The clauses of an entry are the text of its trees, numbered from the current placeholder, one value per placeholder |
| WhereCorrectness.EntryMeaning | backend/src/database/database.service.ts:2783-2835 | The emitted terms are TRUE for a row exactly when the entry, as compiled, asks for it, through nested OR lists and EXISTS |
| WhereCorrectness.AllAskedIsMeant | backend/src/database/database.service.ts:2783-2835 | No row meeting a filter is lost; for one-key alternatives and one operator per object no other row is asked for |
| WhereQueries.CompiledTextMeans | backend/src/database/database.service.ts:2783-2835 | The joined clauses parse to one tree with as many placeholders as pushed values, the i-th bound to the i-th; a row passes exactly when the filter as compiled asks for it |
| WhereQueries.CompiledTextIsMeant | backend/src/database/database.service.ts:2783-2835 | The same against the intended meaning of the filter |
| WhereQueries.CompiledFilterIsExact | backend/src/database/database.service.ts:2783-2835 | On the supported fragment the query returns exactly the described rows, in table order |
| WhereQueries.FindMany | backend/src/database/database.service.ts:2704-2719 | A list query: all rows for an empty filter; the refusal that the filter shows; or, on the supported fragment, the described rows |
| WhereQueries.GenericCount | backend/src/database/database.service.ts:2910-2919 | The count is the length of the list, with the same refusals; on the supported fragment the number of described rows |
| WhereQueries.ListIsDescribed | backend/src/database/database.service.ts:2704-2719 | The list query against the filter alone: its first refusal, or the described rows in table order |
| WhereLinks.ColumnQueryAnswers | backend/src/database/database.service.ts:2804-2834 | A query on one column of any table, by null, a plain value or one operator, answers exactly the rows whose cell meets it, in table order |
| WhereLinks.GroupAnswers | backend/src/database/database.service.ts:2769-2772 | The key `group` of Permission reads the cell `grp` |
| WhereLinks.CreatedByAnswers | backend/src/database/database.service.ts:2797-2802 | Tickets by `createdBy` are those whose `createdById` is the id of a user meeting the subfilter |
| WhereLinks.TicketAnswers | backend/src/database/database.service.ts:2790-2795 | Timeline entries by `ticket` are those whose `ticketId` is the id of a ticket meeting the subfilter |
| WhereQueries.TwoKeyAlternativeWidens | backend/src/database/database.service.ts:2785-2788 | A two-key alternative selects a row that meets only one key |
| WhereAlternatives.AlternativesKeepTheirMeaningExactly | backend/src/database/database.service.ts:2785-2788 | An OR list of nulls, plain values, `contains`, `in` lists, `gte` and `lte` keeps its meaning exactly when its alternatives are all empty, or none is and each way of meeting one condition meets a whole alternative |
| WhereOrders.AlternativesKeepTheirMeaningLawfully | backend/src/database/database.service.ts:2785-2788 | The same for all databases whose equality is an equivalence, whose order is transitive and contains it, and that compare numbers and instants by value: exactly when each way of meeting one condition meets a whole alternative by these laws |
| WhereOrders.LawsSaveRanges | backend/src/database/database.service.ts:2785-2788 | A list of ranges that keeps its meaning under these laws and not under every comparison rule |
| WhereQueries.OperatorObjectKeepsItsMeaningExactly | backend/src/database/database.service.ts:2807-2830 | An operator object keeps its meaning exactly with one operator, or when its first operator compares with null |
| WhereQueries.UpperBoundIsIgnored | backend/src/database/database.service.ts:2812-2819 | Of a `gte` and `lte` range only the lower bound is compiled |
| WhereSyntax.TextIsSqlExactlyWhenGrounded | backend/src/database/database.service.ts:2783-2802 | The text is SQL exactly when the filter and each relational subfilter in it ask for something |
| AssetQueries.BuildFlat | backend/src/database/database.service.ts:1470-1477 | The flattened conditions of an OR or AND list, with their values in order |
| AssetQueries.BuildAssetClauses | backend/src/database/database.service.ts:1463-1507 | The inline asset compiler appends exactly the specified clauses and values |
| AssetQueries.AssetTextMeans | backend/src/database/database.service.ts:1463-1507 | The asset query runs exactly when some entry emits a clause, and a row passes exactly when every entry asks for it |
| AssetQueries.AssetFindMany | backend/src/database/database.service.ts:1463-1507 | The unpaged asset list: rejected iff an entry is unfit, else the asked rows, or a syntax error for a filter of empty lists |
| AssetQueries.AssetCount | backend/src/database/database.service.ts:1560-1604 | The asset count is rejected for the same filters and otherwise the number of asked rows |
| AssetQueries.AssetCompilesExactly | backend/src/database/database.service.ts:1463-1507 | An asset filter compiles iff every condition names a column of letters, digits and underscore and every alternative is an object |
| AssetQueries.AssetColumnAnswers | backend/src/database/database.service.ts:1463-1507 | One column compared with a plain value answers the assets whose cell is not NULL and equals it |
| AssetQueries.CountAndList | backend/src/database/database.service.ts:1463-1604 | Given one compiler, whose text the source has twice, count and list agree on every filter: same refusals, and the count is the length of the list |
| AssetMeaning.PositionKeepsMeaningExactly | backend/src/database/database.service.ts:1470-1503 | At the top, in OR and in AND lists: exactly which values, of any shape, keep their meaning for every cell |
| AssetMeaning.AssetOrKeepsItsMeaningExactly | backend/src/database/database.service.ts:1469-1479 | An asset OR list of nulls, plain values and `contains` keeps its meaning exactly when all alternatives are empty, or none is empty or of nulls only and each comparison is also an alternative by itself |
| QueryScopes.BuildCompanyScope | backend/src/database/query-builders.ts:31-46 | The company condition first, then every additional condition that is not null |
| QueryScopes.BuildAssetScope | backend/src/database/query-builders.ts:65-91 | The built scope is met exactly by the company's rows meeting every given filter |
| QueryScopes.BuildTicketScope | backend/src/database/query-builders.ts:101-124 | The same for tickets |
| QueryScopes.MergeScopes | backend/src/database/query-builders.ts:174-192 | The conditions of all scopes in order, unwrapped when there is one |
| QueryScopes.ContributionsMeet | backend/src/database/query-builders.ts:174-192 | The merged conditions are met exactly by the rows meeting every scope |
| QueryScopes.CompanyScopeSelectsIntersection | backend/src/database/query-builders.ts:31-46 | A company scope merged with any supported scopes and compiled for assets selects exactly the company's rows in the intersection |
| QueryScopes.LoneInIsMisread | backend/src/database/query-builders.ts:188-190 | A lone `in` scope survives merging unwrapped and is then compared as an object |
| ScopeMerging.ImpliedExactly | backend/src/database/query-builders.ts:177-183 | Plain conditions imply another for every row exactly when they contradict each other or one repeats it |
| ScopeMerging.MergeKeepsIntersectionExactly | backend/src/database/query-builders.ts:174-192 | The asset query on merged plain scopes answers their intersection in table order, on every database, exactly when no lone merged condition holds an `in`, the merged conditions imply every condition beside an AND list, every column that reaches the text is an identifier, and something reaches it unless nothing was merged |
| ScopeMerging.EmptyConditionsAreNoSql | backend/src/database/query-builders.ts:188-191 | Two empty conditions in an AND list are merged into a filter whose query is a syntax error |
| SessionRotation.SessionRepository.FindByRefreshToken | backend/src/database/repositories/session.repository.ts:9-23 | Finds a session answering to the token, the hashed match first, and none only when none answers |
| SessionRotation.SessionRepository.Rotate | backend/src/database/repositories/session.repository.ts:55-85 | Compare-and-swap: the token is replaced and its predecessor recorded exactly when the session exists, belongs to the user, is unrevoked, expires after now and holds the presented token or its hash |
| SessionRotation.SessionRepository.RevokeByRefreshToken | backend/src/database/repositories/session.repository.ts:29-36 | Every session answering to the token is revoked now, already revoked or not |
| SessionRotation.SessionRepository.RevokeActiveFamily | backend/src/database/repositories/session.repository.ts:38-44 | Afterwards the user has no live session, and other users' sessions are untouched |
| SessionRotation.SessionRepository.RecordRotation | backend/src/database/repositories/session.repository.ts:46-53 | One history row per token hash, the first one kept |
| SessionRotation.SessionRepository.FindReusedToken | backend/src/database/repositories/session.repository.ts:87-97 | The history row of a token whose recorded expiry is later than now, if there is one |
| SessionRotation.SingleWinner | backend/src/database/repositories/session.repository.ts:55-85 | Over every interleaving at most one rotation succeeds per presented token (section 4.14.2 of RFC 9700), and no session answers to it afterwards |
| SessionRotation.RotationsWereAllowed | backend/src/database/repositories/session.repository.ts:74-84 | Over every interleaving, each rotation was made while its session was its user's, held the presented credential, was unrevoked and expired later than the clock of that instant |
| SessionRotation.SwapSucceedsExactly | backend/src/database/repositories/session.repository.ts:74-84 | The converse: a swap of such a session always succeeds and is logged; any other changes nothing |
| SessionRotation.ExpiredStaysUnrotated | backend/src/database/repositories/session.repository.ts:74-84 | An expired session keeps its credential and expiry over every run and is never logged again |
| SessionRotation.OtherStatements | backend/src/database/repositories/session.repository.ts:29-44 | Which sessions a logout, a family revocation and a trim mark as revoked, and what deletion leaves |
| SessionRotation.AlwaysPossible | backend/src/database/repositories/session.repository.ts:29-85 | Runs without new tokens need nothing of the state they begin in |
| SessionRotation.RevokedStaysRevoked | backend/src/database/repositories/session.repository.ts:29-44 | A revoked session never becomes live again, although rotation writes `revokedAt = NULL` |
| SessionRotation.ReuseIsDetectedExactly | backend/src/database/repositories/session.repository.ts:82-97 | The reuse lookup finds a token exactly when a rotation consumed it, its history row was written and is unexpired |
| SessionRotation.CredentialIsConsumedOnce | backend/src/database/repositories/session.repository.ts:55-97 | Each stored credential is replaced at most once, whether its token or its stored hash text was presented; then no session answers to either text, and the lookup reports exactly the one that was presented |
| SessionRotation.CurrentTokenIsNeverReused | backend/src/common/security/credential-hash.ts:13-16 | No token a session answers to, hashed or legacy, is reported as reused, and it names one session |
| SessionRotation.ReplayRevokesTheFamily | backend/src/database/repositories/session.repository.ts:38-97 | A replayed token is no session's, is traced to its user, and revoking that family leaves no live session |
| SessionRotation.ReissuedTokenIsSpentTwice | backend/src/database/repositories/session.repository.ts:55-85 | Without fresh new tokens a token can be consumed twice |
| MigrationRunner.MigrationsService.ExecuteMigrationStatement | backend/src/database/migrations/migration-state.ts:30-48 | The statement's effect on the schema, or its error unless tolerated: 1060 and 1061 anywhere, 1072 and 1069 for index statements |
| MigrationStatements.IndexStatement | backend/src/database/migrations/migration-state.ts:30-48 | On an existing table an index statement never fails; the index is added iff its columns exist, it is absent and the table has fewer than 64 |
| MigrationStatements.ErrorNumbers | backend/src/database/migrations/migration-state.ts:35-47 | Which of the tolerated errors, by number, the database gives for a column or index |
| MigrationStatements.ColumnStatement | backend/src/database/migrations/migration-state.ts:30-48 | A column is added unless it is there; without the table error 1146 remains |
| MigrationStatements.TableStatement | backend/src/database/migrations/migration-state.ts:30-48 | A table that is there is left alone; a new one comes with its own columns and indexes, and fails with 1072 or 1069 for them |
| MigrationStatements.InsertStatement | backend/src/database/migrations/migration-state.ts:30-48 | Rows are added exactly as derived, none is changed, and a missing table fails |
| MigrationRunner.MigrationsService.Apply | backend/src/database/migrations/migrations.service.ts:56-66 | The statements in order, then the applied row, then the deletion of the failure row, up to the first error |
| MigrationRunner.MigrationsService.RecordMigrationFailure | backend/src/database/migrations/migration-state.ts:21-28 | One failure row per name whose attempts grow by one |
| MigrationRunner.MigrationsService.RunMigrations | backend/src/database/migrations/migrations.service.ts:34-73 | A run over the list under any faults: applied migrations are skipped, failures recorded, and a failing SELECT or record, before or after it took effect, ends the run |
| MigrationStatements.IndexMigrationsPass | backend/src/database/migrations/migrations.service.ts:34-73 | A fault-free run applies every pending migration of index statements on existing tables, however many indexes there are, and adds exactly the indexes that fit |
| MigrationRunner.MigrationsService.ReadMigrationStatus | backend/src/database/migrations/migration-state.ts:50-63 | Applied count, the listed names that are not applied, and the failure rows |
| MigrationGrowth.Grow | backend/src/database/migrations/migrations.service.ts:62 | An uninterrupted run only adds, keeps the index limit, and every object comes from the start, a CREATE, an ADD or an INSERT whose sources can be there |
| MigrationGrowth.ThroughKeeps | backend/src/database/migrations/migrations.service.ts:56-72 | A faulty run of a migration only adds, its tables, columns and indexes stay within the uninterrupted schema, its rows are seeded ones, and completed statements have settled |
| MigrationGrowth.IndexLimitIsFar | backend/src/database/migrations/migration-state.ts:42-45 | On the way to a legal schema no index statement meets the index limit |
| MigrationGrowth.FoldGathers | backend/src/database/migrations/migrations.service.ts:62 | The rows of an uninterrupted run are those read off its INSERT statements and the rows at the start |
| MigrationGrowth.ComesExactly | backend/src/database/migrations/025_permission_governance.sql:89-133 | A row comes exactly when it is there or some statement derives it from the rows there by its turn |
| MigrationConvergence.CatchUp | backend/src/database/migrations/migrations.service.ts:46-66 | A clean run after faulty ones has no error but "already there" and leaves every table and column of the uninterrupted run |
| MigrationConvergence.RetryConvergesExactly | backend/src/database/migrations/migrations.service.ts:46-72 | Any faulty runs and then a clean one apply every migration, and reach the uninterrupted schema exactly when no index is lost by then and the rows there and the statements still pending yield the rows of the uninterrupted run, none lost and none gained |
| MigrationDerivations.RetryConvergesByDerivations | backend/src/database/migrations/migrations.service.ts:46-72 | The same by the statements that select rows: no derivation has missed its sources or now comes before them, and none finds sources that an uninterrupted run has too late for it |
| MigrationDerivations.InOrderNeverGains | backend/src/database/migrations/025_permission_governance.sql:89-133 | When every derivation of the uninterrupted run has its sources at its turn or never, no faults ever add a row to it |
| MigrationConvergence.RetryConverges | backend/src/database/migrations/migrations.service.ts:46-72 | Nothing is lost or gained when every index finds its columns, and every row that can be made its sources, in the start, in a created table or in its own migration |
| MigrationLosses.LostIsGoneForGood | backend/src/database/migrations/migration-state.ts:42 | Once an index is lost, no later runs, clean or faulty, bring it back, although an uninterrupted run has it |
| MigrationLosses.IndexIsLost | backend/src/database/migrations/migration-state.ts:42 | Two migrations and one fault after which no later runs of any kind restore an index |
| MigrationLosses.GoneForGood | backend/src/database/migrations/migrations.service.ts:46-54 | An index or row that no pending migration asks for stays away over any later runs |
| MigrationLosses.AppliedIsFinal | backend/src/database/migrations/migrations.service.ts:46-54 | Once every migration is applied no later run changes anything |
| MigrationLosses.GrantIsLost | backend/src/database/migrations/025_permission_governance.sql:112-116 | A permission seed that fails once before a later migration's grant: the grant is lost over any later runs, without any index |
| MigrationLosses.GrantIsGained | backend/src/database/migrations/025_permission_governance.sql:89-92 | A grant that fails once before a later migration's permission seed is made on retry, and never in an uninterrupted run |
| MigrationBookkeeping.BookkeepingIsRight | backend/src/database/migrations/migrations.service.ts:46-72 | With working bookkeeping: applied and failed are disjoint, cover the list, an applied migration never runs again, attempts count failed executions |
| MigrationBookkeeping.PendingIsFailed | backend/src/database/migrations/migration-state.ts:59-62 | The reported pending names are the listed failed names, in list order |
| MigrationBookkeeping.AppliedAndFailedExactly | backend/src/database/migrations/migrations.service.ts:64-70 | Exactly which faults, the failure record taking effect under an error among them, leave a migration both applied and failed |
| MigrationBookkeeping.BothForever | backend/src/database/migrations/migrations.service.ts:47-54 | No later run clears such a name |
| FixedWindow.WindowsTile | backend/src/common/services/database-throttler-storage.service.ts:20-31 | Windows tile the log: each opens when the last is over, and its hits lie inside it |
| FixedWindow.TwiceTheQuota | backend/src/common/services/database-throttler-storage.service.ts:20-31 | A stretch of hits no longer than a window admits at most twice the quota |
| Throttle.DatabaseThrottlerStorage.Upsert | backend/src/common/services/database-throttler-storage.service.ts:19-31 | The upsert alone, with assignments from left to right: when a window opens, what it counts, and when and how long the first refusal blocks |
| Throttle.DatabaseThrottlerStorage.Read | backend/src/common/services/database-throttler-storage.service.ts:33-46 | The SELECT alone, at its own time, with the least seconds covering each remainder; a missing row reads as one hit without a block |
| Throttle.DatabaseThrottlerStorage.Increment | backend/src/common/services/database-throttler-storage.service.ts:11-47 | The two statements without another between them: the upsert with assignments from left to right, and the verdict read from the row at a later time of its own |
| Throttle.DatabaseThrottlerStorage.CleanupExpiredState | backend/src/common/services/database-throttler-storage.service.ts:49-56 | Rows expired for a day and not blocked are deleted |
| Throttle.VerdictIsLog | backend/src/common/services/database-throttler-storage.service.ts:20-46 | Total hits are the hits since the window opened, and a hit is blocked exactly when they exceed the limit, a window's first hit excepted |
| Throttle.BlockedMeansOverLimitExactly | backend/src/common/services/database-throttler-storage.service.ts:25-27 | "Blocked exactly above the limit" holds exactly for limits of at least one |
| Throttle.BurstBound | backend/src/common/services/database-throttler-storage.service.ts:11-47 | Any interval of one window length lets at most twice the limit through |
| Throttle.BlockEndsWithItsWindow | backend/src/common/services/database-throttler-storage.service.ts:24-28 | During a running block a hit is refused exactly while the window is open |
| Throttle.BlockRunsItsLength | backend/src/common/services/database-throttler-storage.service.ts:19-27 | The first refusal at time t blocks until t plus blockDuration, or plus ttl when that is 0, or 1 when both are; hits during the block do not extend it |
| Throttle.BlockLength | backend/src/common/services/database-throttler-storage.service.ts:19 | The block is the configured one, the window's length when that is 0, and at least a millisecond |
| Throttle.CeilingIsLeast | backend/src/common/services/database-throttler-storage.service.ts:34-36 | Reported seconds are the least that cover the remaining milliseconds |
| Throttle.CleanupIsUnobservable | backend/src/common/services/database-throttler-storage.service.ts:49-56 | Cleanups anywhere in a run change no verdict |
| Throttle.VerdictsAreLogs | backend/src/common/services/database-throttler-storage.service.ts:19-46 | In any run over many keys, with cleanups anywhere, each hit is answered once, with the verdict that its own key's log shows |
| Throttle.KeysAreIndependent | backend/src/common/services/database-throttler-storage.service.ts:18-31 | In a run over many keys each key's row is that of its own log |
| Throttle.BlockIsLog | backend/src/common/services/database-throttler-storage.service.ts:24-27 | In a window over the limit the block ends its length after the hit that the log shows as its start: the first refusal, or the first hit after the block before it |
| Throttle.LateReadIsLog | backend/src/common/services/database-throttler-storage.service.ts:33-46 | With other callers' hits between upsert and SELECT, total and expiry are those of the last hit's window, and the answer is blocked exactly when that hit is beyond the limit and the read comes before the block's end on the log |
| Throttle.LateReadFollowsOwnPlaceExactly | backend/src/common/services/database-throttler-storage.service.ts:19-46 | Exactly when such an answer agrees with the caller's own place in its window: both hits within the limit, both beyond it with the block running at the read, or the block over |
| Throttle.LongBlockKeepsRefusal | backend/src/common/services/database-throttler-storage.service.ts:17-46 | A block as long as the window, the default, refuses every caller beyond the limit until the window is over, however late it reads |
| Throttle.OthersHitRefusesMe | backend/src/common/services/database-throttler-storage.service.ts:19-46 | A caller within its limit is told it is blocked because of a hit between its two statements |
| Throttle.ShortBlockIsMissed | backend/src/common/services/database-throttler-storage.service.ts:19-46 | A caller beyond its limit is let through by a block shorter than the wait for its read |
| Throttle.CleanupBeforeReadExactly | backend/src/common/services/database-throttler-storage.service.ts:33-56 | A cleanup between the two statements changes at most the reported total, exactly when it removes a row of more than one hit |
| Throttle.ReadInRunIsLog | backend/src/common/services/database-throttler-storage.service.ts:19-46 | In a run over many keys a read shows its own key's log |
| RateLimit.RateLimitMiddleware.Use | backend/src/common/middleware/rate-limit.middleware.ts:59-95 | A request opens or extends its client's window and reports the remaining quota and the reset second |
| RateLimit.RateLimitMiddleware.CleanupExpiredQuotas | backend/src/common/middleware/rate-limit.middleware.ts:126-135 | Exactly the quotas whose window is over are removed |
| RateLimit.HeadersAreLog | backend/src/common/middleware/rate-limit.middleware.ts:59-84 | In a run over any number of clients, remaining and reset depend on the client's own log alone |
| RateLimit.CeilingIsFirst | backend/src/common/middleware/rate-limit.middleware.ts:79 | The reset header is the first whole second not before the window's end |
| RateLimit.CleanupIsUnobservable | backend/src/common/middleware/rate-limit.middleware.ts:126-135 | Cleanups anywhere in a run change no header |
| RateLimit.AnswersAreLogs | backend/src/common/middleware/rate-limit.middleware.ts:59-135 | In any run, with cleanups anywhere, each request is answered once, with headers read off its own client's log |
| Recurrence.PartsOfMadeDay | backend/src/modules/maintenance/maintenance.service.ts:403-412 | Year, month and date are recovered from the day they make (section 21.4.1 of ECMA-262) |
| Recurrence.NextDueDate | backend/src/modules/maintenance/maintenance.service.ts:403-412 | The due date is the base plus the lengths of the calendar months, the year or the days that the frequency names |
| Recurrence.AdvanceBounds | backend/src/modules/maintenance/maintenance.service.ts:403-412 | 7 days, the length of the base month, 89 to 92, 181 to 184, 365 or 366, at least 1 |
| Recurrence.CustomExactly | backend/src/modules/maintenance/maintenance.service.ts:403-412 | A frequency of its own adds the configured days, thirty for none, and at least one |
| Recurrence.CalendarIsGregorian | backend/src/modules/maintenance/maintenance.service.ts:403-412 | The calendar the dates are set in has the lengths of the months |
| Recurrence.EpochAndDay | backend/src/modules/maintenance/maintenance.service.ts:403-412 | Days last 86,400,000 milliseconds and count from 1970-01-01 |
| Recurrence.DayOfMonthKeptExactly | backend/src/modules/maintenance/maintenance.service.ts:406-408 | The day of the month is kept exactly when the target month has it; otherwise the date runs into the next month |
| Recurrence.MaintenancePlan.CompletePlan | backend/src/modules/maintenance/maintenance.service.ts:197-232 | Completion without an explicit due date leaves the plan due later than it was done |
| PrivacyRequests.PrivacyRequestsService.Create | backend/src/modules/privacy-requests/privacy-requests.service.ts:15-48 | A new request awaits verification for a day, with one event |
| PrivacyRequests.PrivacyRequestsService.Verify | backend/src/modules/privacy-requests/privacy-requests.service.ts:50-65 | A matching unexpired token verifies one request and no second time; otherwise nothing changes and no request matched |
| PrivacyRequests.GuardsAreExact | backend/src/modules/privacy-requests/privacy-requests.service.ts:98-108 | The guards accept exactly the updates that leave a good row, except that a held request cannot be completed as a deletion even by the call that lifts the hold |
| PrivacyRequests.PrivacyRequestsService.Update | backend/src/modules/privacy-requests/privacy-requests.service.ts:90-148 | Refusals change nothing; otherwise the row holds what the call gives for each column and keeps the rest, with one artifact or deletion job per completion, the events, and every row stays good |
| PrivacyRequests.UpdateLeaves | backend/src/modules/privacy-requests/privacy-requests.service.ts:110-129 | The row after an update is the one row that holds the notes and hold reason given or else the old ones, first times of each mark, the completion time of terminal states, and the assignee chosen, old or acting |
| PrivacyRequests.StaleUpdateLeaves | backend/src/modules/privacy-requests/privacy-requests.service.ts:110-129 | On a row changed since it was read, only absent notes differ: those that were read come back |
| PrivacyRequests.CredentialMatchesExactly | backend/src/common/security/credential-hash.ts:9-24 | What a stored credential matches: nothing when absent, by hash behind the prefix `sha256:`, otherwise by text |
| PrivacyRequests.PrivacyRequestsService.DownloadExport | backend/src/modules/privacy-requests/privacy-requests.service.ts:150-161 | A matching token marks one unexpired artifact as downloaded; otherwise nothing changes and no unexpired artifact matched |
| PrivacyLifecycle.SequentialRunsAreGood | backend/src/modules/privacy-requests/privacy-requests.service.ts:50-129 | In every state of sequential runs: completed implies verified identity, denied implies notes, completion time exactly in terminal states, hold with reason, completed deletions approved and not on hold |
| PrivacyLifecycle.VerifyNowVerifies | backend/src/modules/privacy-requests/privacy-requests.service.ts:50-65 | A verification on its own marks exactly a request that is being verified, in time and unverified |
| PrivacyLifecycle.UpdateNowUpdates | backend/src/modules/privacy-requests/privacy-requests.service.ts:90-148 | An update on its own is refused without effect or leaves the row that its columns ask for |
| PrivacyLifecycle.StatementsExactly | backend/src/modules/privacy-requests/privacy-requests.service.ts:50-129 | Which calls the SELECTs let pass and what each UPDATE leaves of the row |
| PrivacyLifecycle.NewRequestsStayGood | backend/src/modules/privacy-requests/privacy-requests.service.ts:15-129 | So it is in every state a newly submitted request reaches by whole calls |
| PrivacyLifecycle.RequestRunsItsCourse | backend/src/modules/privacy-requests/privacy-requests.service.ts:15-148 | A new request verified within a day can be completed, and then stands completed with its times |
| PrivacyLifecycle.StatementKeepsExactly | backend/src/modules/privacy-requests/privacy-requests.service.ts:57-129 | Of interleaved calls, a statement keeps this exactly when it is not one of two races |
| PrivacyLifecycle.InterleavedRunKeeps | backend/src/modules/privacy-requests/privacy-requests.service.ts:50-129 | Over every interleaving without these races the row stays good |
| PrivacyLifecycle.VerifyReopensCompleted | backend/src/modules/privacy-requests/privacy-requests.service.ts:57-61 | The run in which a late verification reopens a completed request |
| PrivacyLifecycle.HoldMissesCompletion | backend/src/modules/privacy-requests/privacy-requests.service.ts:105-129 | The run in which a hold misses a deletion being completed |
| OneShotTokens.EachLinkWorksOnce | backend/src/modules/privacy-requests/privacy-requests.service.ts:50-65 | Over every interleaving each link is consumed at most once, and each success has one event written, lost or owed |
| OneShotTokens.StatementsExactly | backend/src/modules/privacy-requests/privacy-requests.service.ts:50-65 | Which links the SELECT takes and which the UPDATE wins, and all that each changes |
| OneShotTokens.OtherStatements | backend/src/modules/privacy-requests/privacy-requests.service.ts:15-48 | How a link is issued, and that a winner's event is written or lost |
| OneShotTokens.OneEventPerSuccess | backend/src/modules/privacy-requests/privacy-requests.service.ts:150-161 | When all calls are through and no event write failed, events and successes correspond |
| OneShotTokens.SpentStaysSpent | backend/src/modules/privacy-requests/privacy-requests.service.ts:57-61 | A consumed link stays consumed whatever the status becomes |
| OneShotTokens.WinnersHeldTheToken | backend/src/modules/privacy-requests/privacy-requests.service.ts:50-65 | Over every interleaving, each win of a link was by a call that presented a token matching the credential the link was issued with, cleared since or not, and the link is spent |
| OneShotTokens.NewLinkWins | backend/src/modules/privacy-requests/privacy-requests.service.ts:15-65 | In any state a link just issued and presented in time with its token is won |
| Inventory.InventoryService.CreatePart | backend/src/modules/inventory/inventory.service.ts:74-95 | Opening stock, logged when positive; parts stay sound and equal to their replayed ledgers |
| Inventory.InventoryService.CreateMovement | backend/src/modules/inventory/inventory.service.ts:136-163 | A movement succeeds iff feasible, moves stock and reservation and is logged; 0 <= reserved <= on hand, and the ledger replays to both columns |
| Inventory.RefusedExactly | backend/src/modules/inventory/inventory.service.ts:136-163 | A movement is refused iff its quantity is not positive or what it takes is not there, each case with its error |
| Inventory.MovesColumns | backend/src/modules/inventory/inventory.service.ts:136-163 | What each movement does to stock and reservation |
| Inventory.UseBeyondReserved | backend/src/modules/inventory/inventory.service.ts:136-163 | Using more than is reserved takes all of the reservation and no more |
| Inventory.MovementsBalance | backend/src/modules/inventory/inventory.service.ts:154-160 | Incoming and outgoing stock cancel, reservation and return cancel, use of reserved stock takes from both columns |
| Inventory.LedgerExplainsStock | backend/src/modules/inventory/inventory.service.ts:154-160 | Over every interleaving, at a quiescent state the stock is the signed ledger sum |
| Inventory.CallOnItsOwn | backend/src/modules/inventory/inventory.service.ts:136-163 | The three statements of a call run together are the whole call: moved and logged when feasible, no trace otherwise |
| Inventory.StatementKeepsSoundExactly | backend/src/modules/inventory/inventory.service.ts:143-159 | A statement keeps the bounds exactly when no update takes more than is there at its own moment |
| Inventory.InterleavedRunKeepsSound | backend/src/modules/inventory/inventory.service.ts:136-163 | Over every interleaving without such an update the bounds hold |
| Inventory.ConcurrentUseOverdraws | backend/src/modules/inventory/inventory.service.ts:143-159 | Two concurrent uses of all the stock leave it negative |
| Quotes.RefusedExactly | backend/src/modules/quotes-invoices/quotes-invoices.service.ts:332-341 | Lines are refused exactly for a missing description or a quantity that is not positive |
| Quotes.NormalizedLines | backend/src/modules/quotes-invoices/quotes-invoices.service.ts:336-351 | Accepted lines keep order, number, description and prices, each total non-negative and in cents |
| Quotes.LinesArePriced | backend/src/modules/quotes-invoices/quotes-invoices.service.ts:339-349 | Each accepted line costs its quantity times its unit price, rounded |
| Quotes.KeptLines | backend/src/modules/quotes-invoices/quotes-invoices.service.ts:351 | Every line is checked and the first hundred are kept |
| Quotes.RoundKeepsCents | backend/src/modules/quotes-invoices/quotes-invoices.service.ts:460-462 | Rounding an amount already in cents is exact |
| Quotes.SumIsNear | backend/src/modules/quotes-invoices/quotes-invoices.service.ts:336-355 | n line totals sum to within n half cents and epsilons of the unrounded sum |
| Quotes.SubtotalIsNear | backend/src/modules/quotes-invoices/quotes-invoices.service.ts:336-355 | The subtotal of up to a hundred lines is within n half cents and epsilons of the unrounded sum |
| Quotes.SubtotalCoversAllExactly | backend/src/modules/quotes-invoices/quotes-invoices.service.ts:336-355 | The subtotal is the exact sum of all line totals exactly when the lines beyond the hundredth add nothing |
| Quotes.TotalsIgnoreOrder | backend/src/modules/quotes-invoices/quotes-invoices.service.ts:354-360 | Up to a hundred lines, validity and totals do not depend on order |
| Quotes.OrderIsIrrelevantExactly | backend/src/modules/quotes-invoices/quotes-invoices.service.ts:351-355 | Every reordering of accepted lines has the same subtotal, tax and total at every rate and discount exactly when there are at most a hundred lines, or all add the same to the subtotal and the same to the taxable subtotal |
| Quotes.TotalIsSumOfParts | backend/src/modules/quotes-invoices/quotes-invoices.service.ts:354-360 | With a discount in cents the total is exactly subtotal less discount plus tax, at least zero, and the tax is its rate within half a cent |
| Quotes.TotalIsMonotone | backend/src/modules/quotes-invoices/quotes-invoices.service.ts:354-360 | The total is never negative, never grows with the discount, never shrinks with the tax rate |
| ScopeCache.PermissionScopeCacheService.Get | backend/src/common/services/permission-scope-cache.service.ts:50-68 | A lookup hits, misses, or removes an expired entry and misses |
| ScopeCache.GotExactly | backend/src/common/services/permission-scope-cache.service.ts:33-68 | A lookup finds what is at most five minutes old and removes only an older entry |
| ScopeCache.PermissionScopeCacheService.Set | backend/src/common/services/permission-scope-cache.service.ts:73-88 | The entry is stored, keeping the place of a known key and evicting the oldest key of a full cache |
| ScopeCache.PutExactly | backend/src/common/services/permission-scope-cache.service.ts:34-88 | Only a new key in a cache of ten thousand costs a key, the one inserted first; rewriting moves none |
| ScopeCache.PermissionScopeCacheService.Invalidate | backend/src/common/services/permission-scope-cache.service.ts:93-109 | One pair, or every key starting with the user id, is removed |
| ScopeCache.PermissionScopeCacheService.Cleanup | backend/src/common/services/permission-scope-cache.service.ts:149-158 | Exactly the expired entries are removed |
| ScopeCache.KeyIsInjective | backend/src/common/services/permission-scope-cache.service.ts:142-144 | Keys of colon-free user ids name one pair |
| ScopeCache.GetIsLatestOrNothing | backend/src/common/services/permission-scope-cache.service.ts:50-109 | A lookup finds nothing or exactly the latest uninvalidated scopes, no older than the lifetime; the size bound holds |
| ScopeCache.ForgetsOnlyByEviction | backend/src/common/services/permission-scope-cache.service.ts:50-158 | Without evictions and prefix-related ids the cache agrees with the plain store in both directions |
| ScopeCache.HitsAndMissesAreGets | backend/src/common/services/permission-scope-cache.service.ts:50-68 | Hits and misses add up to the lookups |
| ScopeCache.InvalidationReachesExactly | backend/src/common/services/permission-scope-cache.service.ts:99-108 | Invalidating a user drops another user's entry exactly when the first id is a prefix of the second |
| ScopeCache.StepFollowsRecencyExactly | backend/src/common/services/permission-scope-cache.service.ts:50-109 | An event keeps the keys sorted by last use exactly when it uses no cached key but the one inserted last |
| ScopeCache.EvictsLeastRecentlyUsed | backend/src/common/services/permission-scope-cache.service.ts:76-82 | After a run of such events a full cache evicts the key used least recently |
| ScopeCache.RecentUseDoesNotSave | backend/src/common/services/permission-scope-cache.service.ts:76-87 | The oldest key is evicted next even right after it was read and rewritten |
| Instream.ScanWithClamAv | backend/src/modules/uploads/malware-scanner.service.ts:51-62 | The loop writes the command, length-prefixed chunks and the terminator |
| Instream.FramingRoundTrip | backend/src/modules/uploads/malware-scanner.service.ts:51-62 | A reader recovers the buffer from chunks of 1 to 65536 bytes and stops at the first zero length, whatever follows |
| Instream.FramingIsInjective | backend/src/modules/uploads/malware-scanner.service.ts:51-62 | Different buffers are framed differently |
| Cidr.ToNumberIsAddress | backend/src/common/guards/permissions.guard.ts:197 | The signed shifts and sums, read unsigned, are the address of a well-formed text |
| Cidr.OddOctets | backend/src/common/guards/permissions.guard.ts:197 | An octet that is no number: as the last it makes the address zero, before the last it takes only what precedes |
| Cidr.MaskClears | backend/src/common/guards/permissions.guard.ts:198 | A mask of leading ones clears exactly the low bits |
| Cidr.MatchIsSharedPrefix | backend/src/common/guards/permissions.guard.ts:192-200 | A rule matches exactly the addresses equal to its network after dividing by 2^(32-p) (section 3.1 of RFC 4632); prefixes outside 0 to 32 match none |
| Cidr.WrittenRulesMatchExactly | backend/src/common/guards/permissions.guard.ts:192-200 | Dotted addresses and rules `a.b.c.d/p` built from the numbers: they match iff the first p bits agree |
| Cidr.OddPrefixes | backend/src/common/guards/permissions.guard.ts:192-199 | No digits behind the slash match every address, negative numbers none, and text that is no number compares whole addresses |
| Cidr.PlainRuleIsText | backend/src/common/guards/permissions.guard.ts:192-193 | A rule without a slash matches its own text only |
| Cidr.ShorterPrefixMatches | backend/src/common/guards/permissions.guard.ts:194-199 | A match at one prefix length is a match at every shorter one |
| Cidr.MatchingIsEquivalence | backend/src/common/guards/permissions.guard.ts:192-200 | At one prefix length matching is reflexive, symmetric and transitive |

## Left out

- Select lists, ORDER BY, LIMIT and OFFSET, and includes: queries return whole rows of one table in table order.
- Collation, LIKE wildcards and value conversion: comparisons are arbitrary functions of two values; unknown columns read as NULL.
- Properties that are `undefined` are absent entries. OR alternatives and relational subfilters that are not plain objects end in one error, where JavaScript would take an array's indexes or a string's characters as columns, or throw.
- `AND` has no meaning to the general compiler: it is compiled as a column of that name, as in the code.
- The asset list and count carry the same compiler twice; it is modelled once. Which of two refusals inside one asset list is reported first.
- The permission scope builder: another list of optional equalities. A merged single condition that is not an object is out of the model.
- QueryScopes.CompanyScopeSelectsIntersection: additional conditions and scopes are flat or one AND list of flat conditions, the fragment the asset compiler gives a meaning to; scopes may not hold an OR list.
- WhereAlternatives.AlternativesKeepTheirMeaningExactly: `not`, objects with several operators, ranges over lists or objects, nested OR lists and subfilters inside alternatives are covered by the sufficient one-key condition of WhereQueries.CompiledTextIsMeant.
- AssetMeaning.AssetOrKeepsItsMeaningExactly: other operators inside asset alternatives have the exact condition of their position only, not of the whole list.
- ScopeMerging.ImpliedExactly: for arbitrary comparison rules; where equality is known to be an equivalence, equalities on several columns can imply more.
- ScopeMerging.MergeKeepsIntersectionExactly: scopes with OR lists, ranges or `not`, which the asset compiler gives no meaning to, are outside.
- SHA-256 is any injective function; collation of stored tokens is exact equality. Reading a session's user, device data and multi-factor timestamps are not part of the model.
- Session ids are never reused and new tokens are fresh, as random generation makes overwhelmingly likely; SessionRotation.ReissuedTokenIsSpentTwice shows what rests on it.
- The migration runner's guard against a second run in the same process (`runningPromise`), loading of files, splitting at semicolons and the statement patterns: migrations are lists of CREATE TABLE, ADD COLUMN and ADD INDEX with one change each, and of INSERT IGNORE with VALUES or a SELECT; column types and row contents are opaque, and a SELECT is given by the rows it makes out of which others.
- UPDATE, DELETE and MODIFY COLUMN statements, as in migrations 021, 023, 036, 040, 043, 044 and 049, and queries that select the absence of rows.
- MigrationConvergence.RetryConvergesExactly: assumes what an uninterrupted run shows, no error beyond "already there", and one definition per created table, added column and added index and one content per seeded row.
- Migrations that write the bookkeeping tables themselves, as the first two embedded ones do.
- The throttle has one clock for database and application. Key hashing is injective.
- Throttle.BurstBound: for windows of at least one millisecond; with a zero window every hit opens its own.
- The throttle's log lemmas take one rule per key, as the throttler configures it.
- The rate limiter's statistics and key generator.
- Maintenance runs beside the plan, tickets, local time zones, the limits of the Date type.
- Who approved a deletion (only the time is kept), jurisdiction, due dates, e-mail, encryption and the contents of exports; the audit log; deadline reminders.
- Stock has integer hundredths; locations, notes and companies are not modelled. `updatePart` with a quantity sets stock without a ledger row and is outside every run.
- Reservations replayed from the ledger are claimed for whole calls only: concurrent movements may be logged in another order than they were applied.
- Quotes are in exact reals; binary floating-point error is not modelled. Updates of tax rate or discount alone, which do not recompute totals, and invoices.
- The cache's statistics report and log lines.
- The socket, timeouts and the scanner's answer; buffers are sequences of bytes.
- Numbers in a CIDR rule other than plain decimal text, such as exponents or hexadecimal, and integers beyond 2^53.
- Roles, tenant and business guards, pagination, deduplication, seeds, and everything in the browser.
