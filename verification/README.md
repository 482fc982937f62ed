# Role synchronisation, verified

The service grants Discord roles from Roblox data. Role owners configure conditions per role link; the service
decides who meets them and keeps two stores in line with that decision: RoleLogic's live user list of each link, and
the local `role_assignments` mirror. This project models that decision, the protocol over the two stores, and the
pieces around them, and proves what they keep over every input and every run.

| component | modules |
|---|---|
| condition compiler (bulk syncs) against interpreter (per-player syncs) | `Conditions`, `ConditionEval`, `SqlText`, `ConditionSql`, `ConditionAgreement`, `ConditionMeaning` |
| the bulk query and its joins | `Database` |
| the two stores, bulk replace, player sync, unlink | `RoleStores`, `PlayerSync`, `SyncService`, `SyncTheorems`, `BulkAnswers`, `SystemHistory` |
| config sync worker | `ConfigWorker` |
| config form codec | `ConfigForm`, `FormMeaning` |
| stats pipeline | `EntryKeys`, `GameRegistry`, `StatPaths`, `Ingest`, `PollWorker` |
| shared strings, JSON, results | `Text`, `Json`, `Wrappers` |

What a condition accepts, what an answer leads to and what a form stores is stated in `ConditionMeaning`,
`BulkAnswers` and `FormMeaning` in numbers, texts and answers, without the functions that compute it.

How the outside world enters the model:

* `now` is a parameter, in microseconds for conditions, milliseconds for the config worker and seconds for polling.
* Every remote call has a `Reply` chosen by the caller, including `Lost`: the call took effect, but no usable answer
  came back. Local writes and database reads that can fail have a flag each (`dbOk`, `Reads`, `PlayerReads`).
* A link deleted in RoleLogic has no live list. The model lets the list vanish with the first answer that reports the
  link as gone (`Gone`), whichever call receives it.
* Guild membership is one relation that both kinds of sync see.
* What PostgreSQL or its version decides is a parameter `Rendering`: its text for floats and nested JSON values, and
  which integers it reads in texts that are not plain decimals. Clauses are trees, but the quoted constants in them
  stay text and are lexed when the clause is evaluated.
  PostgreSQL fixes no order of evaluation: `Error` is an error that no order avoids, and a query fails when a
  member's row has one. An error met in some orders only is a failed read (`Reads.rows`).

## What the proofs say about the code

Some properties one would expect do not hold of the code as it is. For each there is an exact condition, proved in
both directions, and the inputs on which it fails.

* Bulk and per-player syncs agree on a condition for all refreshed accounts exactly when the configuration passes
  `ConditionAgreement.Safe`. It fails for age bounds other than `>=` with a positive number (or a comparison that can
  never hold): SQL compares the fractional age (src/services/sync.rs:282-292), the interpreter whole days
  (src/services/condition_eval.rs:44-51). It fails for rank comparisons that 0 satisfies, because a missing group is
  rank 0 in one and no row in the other; and for an asset condition that carries another gamepass id, which SQL looks
  up first (src/services/sync.rs:317). The failing rows are `Disagreement`.
* A refresh leaves a row of the shape this rests on exactly when the groups API lists no group twice
  (`RefreshEstablishesShape`); the code does not remove repeats (src/services/roblox_api.rs:193-201).
* A bulk replacement keeps list and mirror equal, from all stores in which they are, exactly under
  `SyncTheorems.KeepsPaired`. It fails when the answer to the swap is lost, when the list was swapped but the local
  transaction fails (src/services/sync.rs:593-613), and when the link is gone but not deleted: the delete fails, or it
  is a chunk, the cancel after a failed chunk, or the commit of an upload that finds it gone, and none of these is
  classified as gone (src/services/rolelogic.rs:352-450). A bulk replacement repairs any drift exactly under
  `Repairs`. After a swap that took effect a player's sync repairs that player as well, on the same data.
* A player who holds a role and qualifies is sent a Remove exactly when stats that one of the link's game conditions
  needs could not be read: the code skips the failed read (src/services/sync.rs:120-135).
* Polling is fair exactly when no two registrations share a universe, because one poll stamps all of them
  (src/tasks/opencloud_poll_worker.rs:103). `LongerIntervalSiblingStarves` is a run in which one is never polled.
* Stats stay with registered universes under every handler and every write, except exactly a write that lands after
  the last registration was deleted (`WriteStats`).
* An offered path reads back in every object that has a leaf there exactly when all its keys are plain
  (`PathReadsBackExactlyWhenPlain`).
* After an unlink the user stays in exactly the live lists that the mirror did not know of or that refused the
  removal, while the local rows are gone.
* After any history of player syncs, bulk syncs and configuration changes, with any failures and changing data, a
  player's next successful sync settles a link that is not gone exactly when what was left unrecorded there, if
  anything, went the way the data now say (`SystemHistory.PlayerSyncSettlesExactlyWhen`). It fails when an Add was
  accepted, its local write failed, and the user stopped qualifying: nothing is planned, and the user stays in the
  live list (`ChangedDataStrandsAUser`). A link's next successful push settles all its users in any case.

On the same data, interrupted syncs converge from equal stores even when calls are lost, because the local write
comes after the remote one.

Where comments and code differ, the model follows the code: the comment above `evaluate_role_link_in_memory`
(src/services/sync.rs:617-620) speaks of candidates that pass a SQL pre-filter, but the query applies none; the one in
`evaluate_single` says asset ownership is not cached, but the code looks the asset id up among the gamepasses.

## Model

| member | source | states |
|---|---|---|
| ConditionSql.BuildConditionWhere | src/services/sync.rs:257-385 | placeholders are exactly $1..$n in order, n is the bind count, each clause with its binds is the one its condition stands for; FALSE for an empty list or one that names nothing; `needs_eval` exactly for game stats |
| ConditionSql.CompileOne | src/services/sync.rs:268-371 | one condition's clause continues the numbering and, once bound, means that condition |
| ConditionSql.PushTest | src/services/sync.rs:387-407 | a comparison takes one fresh placeholder, `between` two, bound to its own bounds |
| ConditionSql.FaithfulPush | src/services/sync.rs:257-385 | appending a clause numbered after the existing binds leaves every earlier clause's meaning alone |
| ConditionSql.MembersComeNext | src/services/sync.rs:549-567 | the member list's placeholder is none of the clauses', and together they use $1..$(n+1) once each |
| SqlText.QuotedTextLexesBack | src/services/sync.rs:409-411 | for every text, the quoted constant is one whole token whose value is that text, before any text that does not go on with a quote |
| SqlText.QuotesAreDoubled | src/services/sync.rs:409-411 | quoting doubles every quote and changes nothing else |
| ConditionAgreement.RefreshEstablishesShape | src/tasks/refresh_worker.rs:123-178 | whatever was cached, a refresh leaves id lists of strings and groups with distinct integer ids and ranks if and only if the API listed no group twice |
| ConditionAgreement.AgeMeaning | src/services/sync.rs:276-295 | fractional days against whole days: equal answers if and only if `AgeExact`, for every operator and sign |
| ConditionAgreement.RankMeaning | src/services/sync.rs:342-368 | EXISTS over the group entries is true exactly for members whose first-found rank passes |
| ConditionAgreement.FirstRankIsTheRank | src/services/condition_eval.rs:113-130 | with distinct group ids the first rank found is the rank of the only such entry |
| ConditionAgreement.RowAgreement | src/services/condition_eval.rs:39-149 | for every refreshed row and condition, SQL and interpreter agree if and only if `Exact`; no clause raises an error |
| ConditionAgreement.CompiledTruth | src/services/sync.rs:257-385 | the generated WHERE has on every row the three-valued truth, or the error, of the conditions it stands for |
| ConditionAgreement.CompiledMeaning | src/services/sync.rs:257-385 | the generated WHERE is true of a row exactly when every condition's intended clause is |
| ConditionAgreement.ShapedRowsRaiseNoError | src/services/sync.rs:257-385 | no condition list raises an error on a refreshed row |
| ConditionAgreement.CompilerPreservesMeaning | src/services/sync.rs:257-385 | every list compiled without `needs_eval`: WHERE is TRUE exactly when the interpreter returns true, on exact rows |
| ConditionAgreement.SingleConditionAgreement | src/services/sync.rs:257-385 | for one condition, as the form stores it, agreement and `Exact` are equivalent |
| ConditionAgreement.SafeConfigurations | src/services/condition_eval.rs:39-149 | a check on the configuration that holds if and only if the two agree for every refreshed account at every time |
| ConditionAgreement.UnsafeConditionDisagrees | src/services/condition_eval.rs:44-134 | a concrete row and clock on which each unsafe configuration is answered two ways |
| ConditionAgreement.NumericBadgeIdsDisagree | src/services/condition_eval.rs:215-221 | a badge id stored as a number counts for the interpreter only, so the stored shape matters |
| ConditionAgreement.RepeatedGroupsDisagree | src/services/condition_eval.rs:115-130 | a group listed twice: the interpreter reads the first rank, SQL accepts any |
| ConditionMeaning.CountsAccept | src/services/condition_eval.rs:53-57 | a count condition, interpreted or compiled, accepts a row exactly when its own column compares so with the numbers stated; a value that is no number counts as 0, a missing end as the start |
| ConditionMeaning.BetweenAccepts | src/services/sync.rs:387-407 | `between lo and hi` accepts lo to hi, ends included, in SQL and in the interpreter |
| ConditionMeaning.AgeAcceptsWholeDays | src/services/condition_eval.rs:44-51 | the interpreter compares whole days of 86,400 seconds counted toward zero; an unknown creation time is day 0 |
| ConditionMeaning.AgeAcceptsFraction | src/services/sync.rs:276-295 | SQL compares the age in microseconds with whole days; an unknown creation time is never accepted |
| ConditionMeaning.VerifiedAccepts | src/services/condition_eval.rs:52 | the verified badge is compared with the flag asked for, yes by default, in both |
| ConditionMeaning.BadgeDecision | src/services/condition_eval.rs:58-69 | a badge condition asks for one of the cached badge ids; one without an id accepts nobody |
| ConditionMeaning.BadgeQuery | src/services/sync.rs:304-315 | and so does its SQL |
| ConditionMeaning.GamepassDecision | src/services/condition_eval.rs:70-99 | gamepass and asset conditions ask the cached gamepass ids for the id of their own kind |
| ConditionMeaning.GamepassQuery | src/services/sync.rs:316-328 | their SQL asks for the gamepass id or, without one, the asset id |
| ConditionMeaning.MembershipDecision | src/services/condition_eval.rs:100-112 | a membership condition asks for one of the cached group ids |
| ConditionMeaning.MembershipQuery | src/services/sync.rs:329-341 | and so does its SQL |
| ConditionMeaning.RankDecision | src/services/condition_eval.rs:113-134 | a rank condition compares the rank cached for the group named, 0 without that group |
| ConditionMeaning.RankQuery | src/services/sync.rs:342-368 | its SQL compares the same rank and accepts nobody without that group |
| ConditionMeaning.AnyListDecision | src/services/condition_eval.rs:58-99 | whatever JSON is cached, ownership asks for a value that shows the id as a text or as a number written so |
| ConditionMeaning.AnyMembershipDecision | src/services/condition_eval.rs:100-112 | and membership for an entry that names the group |
| ConditionMeaning.AnyRankDecision | src/services/condition_eval.rs:113-134 | and the rank compared is that of the first entry for the group that has an integer rank, or 0 |
| ConditionMeaning.AnyMembershipQuery | src/services/sync.rs:329-341 | whatever list is cached, SQL asks for an entry whose `group_id` reads as the id |
| ConditionMeaning.RanklessGroupsQuery | src/services/sync.rs:342-368 | entries without a rank accept nobody and break no query |
| ConditionMeaning.CustomNumericAccepts | src/services/condition_eval.rs:151-184 | the stat under the key is compared with the numbers stated; fractions are cut toward zero, 64 bits saturate, anything else is 0 |
| ConditionMeaning.CustomStringAccepts | src/services/condition_eval.rs:173-181 | the stat under the key equals the text stated; no text counts as empty |
| ConditionMeaning.CustomBooleanAccepts | src/services/condition_eval.rs:151-184 | the stat under the key equals the flag asked for; no flag counts as false |
| ConditionMeaning.GameConditionNeedsStats | src/services/condition_eval.rs:135-147 | without a universe, a key or a stats row nobody is accepted |
| ConditionMeaning.ListAccepts | src/services/condition_eval.rs:26-37 | a list accepts what all its conditions accept, an empty one nobody |
| ConditionMeaning.RefreshedCountsDecide | src/tasks/refresh_worker.rs:123-178 | after a refresh each count condition is decided on the count returned for that field, the badge on the flag returned |
| ConditionMeaning.RefreshedListsDecide | src/tasks/refresh_worker.rs:130-140 | ownership and membership hold exactly for the ids returned, ranks are those returned |
| ConditionMeaning.RefreshedAgeDecides | src/tasks/refresh_worker.rs:143-160 | the age is decided on the creation time returned or, without one, the cached one |
| ConditionMeaning.CountsWrap | src/tasks/refresh_worker.rs:165-168 | a count beyond 32 bits wraps around |
| ConditionEval.EvaluationReadsReferencedUniverses | src/services/condition_eval.rs:26-37 | stats of universes the list does not name cannot change the decision |
| ConditionEval.ReferencedUniversesMembership | src/services/sync.rs:461-464 | the universes collected are exactly those some condition names |
| Database.CacheJoinsAtMostOnce | src/services/sync.rs:553-559 | each linked account joins its one cached row or none |
| Database.StatsMatchAtMostOnce | migrations/004_player_game_stats.sql:3-12 | by the primary key, a stats join matches at most one row, the player's own |
| Database.LeftJoinKeepsRows | src/services/sync.rs:527-543 | a LEFT JOIN on stats neither multiplies nor drops nor reorders accounts |
| Database.JoinsKeepRows | src/services/sync.rs:527-543 | nor does any number of them |
| Database.AliasesShowTheirUniverse | src/services/sync.rs:630-671 | each alias shows the account's own stats in the universe its join names |
| Database.BulkDecidesLikeInterpreter | src/services/sync.rs:545-569 | where a row is trusted, the bulk decision is the interpreter's, on both paths |
| Database.QualifyingMeaning | src/services/sync.rs:545-569 | the list to push holds exactly the accepted members, none twice, in `linked_at` order |
| Database.SqlPathIsCorrect | src/services/sync.rs:549-568 | when the query does not fail, joins, generated WHERE and member filter return exactly that list |
| Database.QueryFailsMeaning | src/services/sync.rs:549-568 | the generated query fails exactly when some member's cached row raises an error |
| Database.ShapedCacheNeverFails | src/services/sync.rs:549-568 | over refreshed rows it never fails |
| Database.MemoryPathIsCorrect | src/services/sync.rs:621-691 | fetching everything and re-checking in memory returns exactly that list |
| SyncService.BuildUniverseJoins | src/services/sync.rs:527-543 | one fresh alias and one join for each named universe, with its quoted id |
| SyncService.JoinsInAnyOrder | src/services/sync.rs:629-635 | the joins rebuilt from the alias map are as good in any order |
| SyncService.EvaluateRoleLinkInMemory | src/services/sync.rs:621-691 | the slow path returns the list to push |
| SyncService.Service.ReplaceUsers | src/services/rolelogic.rs:198-249 | one PUT swaps the whole list or leaves it, with the error each answer maps to |
| SyncService.Service.StartUpload | src/services/rolelogic.rs:312-350 | a session starts empty; the live list is untouched unless the link is gone |
| SyncService.Service.AppendChunk | src/services/rolelogic.rs:352-383 | staged ids grow by the chunk; the live list is untouched unless the link is gone, which is not classified |
| SyncService.Service.CancelUpload | src/services/rolelogic.rs:430-450 | the session is dropped if the call takes effect; a failure is ignored, a gone link included |
| SyncService.Service.CommitUpload | src/services/rolelogic.rs:385-428 | the staged list becomes the live one at once, or not at all |
| SyncService.Service.ReplaceUsersScalable | src/services/rolelogic.rs:254-310 | the result and live list of the whole upload; the chunks add up to the list; a failed chunk cancels the session |
| SyncService.Service.PushAndRebuild | src/services/sync.rs:579-613 | the stores after push and rebuild, for each outcome |
| SyncService.Service.SyncForRoleLink | src/services/sync.rs:415-616 | a bulk sync pushes the target list (empty for no conditions, unregistered universes, no members) and rebuilds from it; a failed read or query changes nothing |
| SyncService.Service.DeleteOrphanRoleLink | src/services/sync.rs:734-748 | the link and, by cascade, its mirror rows go; a failed delete changes nothing |
| SyncService.Service.ActionsForPlayer | src/services/sync.rs:93-176 | the planned actions follow from the mirror and from qualification with each link's own universes, unreadable stats counting as none |
| SyncService.Service.Perform | src/services/sync.rs:186-238 | the remote and local step of one action, for every reply |
| SyncService.Service.SyncForPlayer | src/services/sync.rs:28-245 | a player's sync ends in the stores of its planned actions; each read that fails, but for stats, stops it with nothing changed |
| SyncService.UnreadableStatsCostTheRole | src/services/sync.rs:120-135 | with some stats unreadable a player qualifies if and only if they would otherwise and no game condition needs those stats |
| SyncService.Service.RemoveAllAssignments | src/services/sync.rs:694-728 | an unlink's remote removals, then all local rows of the user gone |
| RoleStores.RemoteStepIsLocalToItsKey | src/services/sync.rs:190-222 | a remote call changes its own (guild, role) part of the stores and no other |
| RoleStores.LocalStepIsLocalToItsKey | src/services/sync.rs:734-748 | a local write, cascade included, changes its own (guild, role) part and no other |
| RoleStores.CellsDetermineStores | migrations/001_initial_schema.sql:25-32 | stores that agree on every link are equal |
| RoleStores.StepsKeepForeignKey | migrations/001_initial_schema.sql:25-32 | both steps of a player's action keep mirror rows on existing links |
| PlayerSync.RunsKeepForeignKey | migrations/001_initial_schema.sql:25-32 | so does every run of a player's sync, finished or not |
| PlayerSync.SequentialKeepsForeignKey | migrations/001_initial_schema.sql:25-32 | and its one-after-another form |
| SyncService.BulkKeepsForeignKey | src/services/sync.rs:579-613 | and a bulk sync of an existing link |
| SyncService.UnlinkKeepsForeignKey | src/services/sync.rs:708-718 | and an unlink |
| PlayerSync.PlanMeaning | src/services/sync.rs:147-176 | a link gets an action exactly when mirror and qualification differ, one only, in the direction of the qualification |
| PlayerSync.SomeStepIsEnabled | src/services/sync.rs:182-242 | no schedule gets stuck before all actions are done |
| PlayerSync.StartsExactlyBelowTen | src/services/sync.rs:182-184 | the next action starts exactly while fewer than ten are in flight |
| PlayerSync.AtMostTenInFlight | src/services/sync.rs:182-184 | in every configuration that any run reaches, at most ten actions are in flight |
| PlayerSync.RunTracks | src/services/sync.rs:182-242 | in every configuration of every run each link's part depends on its own action's progress alone |
| PlayerSync.InterleavingIndependence | src/services/sync.rs:182-242 | every finished interleaving, with any outcomes, leaves the stores of the one-after-another run |
| PlayerSync.InterruptedRunStaysRecoverable | src/services/sync.rs:182-242 | wherever a run stops and however its calls end, no link becomes unrecoverable |
| PlayerSync.SuccessfulRunSettles | src/services/sync.rs:138-245 | a successful run makes live list, mirror and qualification coincide on all links if and only if all were recoverable |
| PlayerSync.AttemptsStayRecoverable | src/services/sync.rs:28-245 | the same over any number of interrupted attempts, each planned from the mirror it finds |
| PlayerSync.Convergence | src/services/sync.rs:28-245 | from equal stores, after any interrupted attempts, the first successful one settles every remaining link |
| SyncTheorems.BulkReplacementIsAtomic | src/services/sync.rs:579-613 | at every failure point list and mirror are each whole: the old one, the pushed one, or none because the link is gone; other links are untouched; success makes both equal the pushed set; a failure whose swap was not lost, on a link not gone, changes nothing |
| SyncTheorems.PairedExactlyWhenKept | src/services/sync.rs:579-613 | a bulk replacement keeps list and mirror equal, from all stores in which they are, if and only if the swap's answer arrived, the rebuild of a swapped list committed, and a link that any call found gone was recognised and deleted |
| SyncTheorems.DriftIsRepairedExactlyWhen | src/services/sync.rs:579-613 | it makes them equal from all stores whatever if and only if the push succeeded or the link was recognised as gone, and the local write committed |
| SyncTheorems.DriftIsRepairedByAPush | src/services/rolelogic.rs:254-310 | every way to drift leaves the list new, or gone with its link, and mirror and link row old; the next push that succeeds repairs both |
| SyncTheorems.TakenSwapIsRecoverable | src/services/sync.rs:579-613 | after a swap that took effect every user is recoverable, so a player's sync repairs that player too |
| SyncTheorems.HeldOnlyFromTheSwap | src/services/rolelogic.rs:254-310 | a bulk sync reports a held removal exactly when the swap itself was held |
| BulkAnswers.PushSucceedsExactlyWhen | src/services/sync.rs:579-613 | from the answers alone: the push succeeds if and only if the swap was accepted and the rebuild committed, or the PUT or the start was answered gone or disabled |
| BulkAnswers.PushFailsExactlyWhen | src/services/rolelogic.rs:198-428 | each error of a push if and only if its cause: more than 30,000,000 users, a full list, a held removal, a failed local write |
| BulkAnswers.LinkDeletedExactlyWhen | src/services/sync.rs:581-587 | the link row goes if and only if the PUT or the start found it gone and the delete worked |
| BulkAnswers.PushedUsers | src/services/sync.rs:579-613 | who is in list and mirror after each answer |
| BulkAnswers.RefusedPushChangesNothing | src/services/rolelogic.rs:221-241 | a paused or full link, a held removal, another refusal or a list too large leaves everything as it was |
| BulkAnswers.UngrantableLink | src/services/sync.rs:436-498 | no conditions, or one about a universe the guild has not registered: nobody is granted the role by either kind of sync |
| BulkAnswers.GrantableLink | src/services/sync.rs:461-569 | for any other link, which failed read gives which error, and else the list to push |
| BulkAnswers.AddLeaves | src/services/sync.rs:190-216 | who is in list and mirror after an Add, for every answer and write |
| BulkAnswers.RemoveLeaves | src/services/sync.rs:217-238 | and after a Remove |
| SyncTheorems.PushedIffAccepted | src/services/sync.rs:545-579 | a member is in the pushed list exactly when the bulk decision accepts its account |
| SyncTheorems.FlapsExactlyOnDisagreement | src/services/sync.rs:147-176 | after a bulk sync, a player sync acts on the link if and only if SQL and interpreter, with the stats it could read, disagree on that row |
| SyncTheorems.NoFlapping | src/services/sync.rs:436-613 | after a successful bulk sync the link is settled for every member and a player sync leaves it alone, on all four paths |
| SyncTheorems.FailedReadDropsTheRole | src/services/sync.rs:120-176 | a qualifying holder of a role is sent a Remove if and only if stats a game condition needs were unreadable |
| SyncTheorems.SafeConditionIsTrusted | src/schema.rs:545-711 | a condition that passes the configuration check never flaps for a refreshed account |
| SyncTheorems.PlayerSyncUnderAnySchedule | src/services/sync.rs:147-242 | the sync's own plan: any finished overlap of its actions equals the sequential result |
| SystemHistory.OtherUsersAreKept | src/services/sync.rs:182-242 | a player's sync leaves every other user of a link alone unless the link is reported gone |
| SystemHistory.EventStep | src/services/sync.rs:28-616 | every event, with any outcome, leaves the two entries of a user on a link not gone as they were, or equal, or parts them with the live list on the side of its data |
| SystemHistory.DriftHasOneCause | src/services/sync.rs:28-616 | after any history from equal entries, under any data, they differ if and only if one action took effect unrecorded and nothing has changed since |
| SystemHistory.PlayerSyncSettlesExactlyWhen | src/services/sync.rs:28-245 | after any history, a player's next successful sync settles a link if and only if what was left unrecorded there went the way the data now say |
| SystemHistory.ChangedDataStrandsAUser | src/services/sync.rs:190-216 | the failing case: an unrecorded Add, then the user stops qualifying, and the next successful sync leaves the user in the live list |
| SystemHistory.PushSettles | src/services/sync.rs:579-613 | a link's next successful push settles every user on it, whatever was before |
| SystemHistory.HistoryStaysRecoverable | src/services/sync.rs:28-616 | over every history on the same data, with any failures, losses and cut-offs, every user stays recoverable on every link not gone |
| SystemHistory.NextSuccessSettles | src/services/sync.rs:28-245 | so on the same data a player's next successful sync settles that player on every link not gone |
| SystemHistory.TargetIsQualified | src/services/sync.rs:415-569 | from the tables: where rows are trusted, a bulk sync pushes exactly the qualifying members, on all four paths |
| SystemHistory.WantedIsQualified | src/services/sync.rs:93-176 | and a player's sync wants exactly the links for which the player qualifies |
| SystemHistory.TablesGiveOneQualification | src/services/sync.rs:28-616 | so both kinds of sync act on one and the same qualification |
| SystemHistory.TablesSettleExactlyWhen | src/services/sync.rs:28-616 | with the tables as they stand at each event, a player's next successful sync makes live list, mirror and decision coincide if and only if nothing was left unrecorded that the tables now contradict |
| SyncTheorems.UnlinkMeaning | src/services/sync.rs:708-718 | which assignments survive an unlink's remote calls, for every link and user |
| SyncTheorems.UnlinkRemovesEverywhere | src/services/sync.rs:694-728 | the user stays in exactly the lists the mirror did not know of or that refused the removal, and in no mirror row; nobody else is affected except by an orphan's cascade |
| ConfigWorker.PendingMeaning | src/tasks/config_sync_worker.rs:30-73 | at every point of every run a link is pending for an instant if and only if its last event or held sync booked that instant and nothing superseded it |
| ConfigWorker.EventAnswered | src/tasks/config_sync_worker.rs:30-73 | every event: a sync of its link began at least 5 s after it, or the link is still pending |
| ConfigWorker.StartsAreJustified | src/tasks/config_sync_worker.rs:42-73 | a sync begins only a debounce after the link's last event, or as a re-check no event has overtaken |
| ConfigWorker.HeldAlwaysBooksRecheck | src/tasks/config_sync_worker.rs:58-68 | after a held write the link is never pending, so the re-check is always booked 20 minutes out |
| ConfigWorker.ReadyIsServedBeforeNextScan | src/tasks/config_sync_worker.rs:42-73 | a link found due is synced before the next scan or event |
| ConfigWorker.SyncComesWithFirstDueScan | src/tasks/config_sync_worker.rs:30-73 | the sync that an event or a held re-check booked belongs to the first scan at or past its instant, with no scan or event between |
| ConfigWorker.LatenessIsBounded | src/tasks/config_sync_worker.rs:14-73 | a booked sync starts less late than the time since the previous scan: that pass's syncs, the events and wait after them, and the syncs served first; if these take at most 40 minutes, a re-check is inside the hour |
| ConfigWorker.Worker.RunTurn | src/tasks/config_sync_worker.rs:30-73 | one iteration appends exactly its events, one scan, and one sync per due link, and keeps the fields what the log says |
| ConfigWorker.Worker.TakeEvents | src/tasks/config_sync_worker.rs:31-37 | every event drained re-books its link |
| ConfigWorker.Worker.Scan | src/tasks/config_sync_worker.rs:42-47 | exactly the links due by now are taken, and nothing else changes |
| ConfigWorker.Worker.ServeReady | src/tasks/config_sync_worker.rs:49-73 | each due link is removed and synced once |
| ConfigWorker.Worker.SyncOne | src/tasks/config_sync_worker.rs:49-73 | removal before the sync, re-booking only after a held reply |
| ConfigWorker.Worker.Run | src/tasks/config_sync_worker.rs:21-76 | over all iterations the events received are those sent, in order, and the log is a legal run |
| ConfigForm.GameStatRoundTrip | src/schema.rs:19-33 | decoding an encoded triple returns it if and only if all parts are non-empty and universe and key neither contain `::` nor end in `:` |
| ConfigForm.DecodedIsClean | src/schema.rs:24-33 | whatever decodes can always be encoded again, to the same text |
| ConfigForm.NamesAreDistinct | src/schema.rs:44-132 | no two slots of the form share a name |
| ConfigForm.ParsedIsFormCondition | src/schema.rs:545-719 | whatever is submitted, an accepted form stores one well-formed condition |
| ConfigForm.BuildValues | src/schema.rs:44-132 | the `values` map shows every slot of the stored condition, with later inserts overwriting nothing needed; an empty list asks for a field |
| ConfigForm.ShownConditionParses | src/schema.rs:545-711 | a form that shows a storable condition parses to exactly that condition |
| ConfigForm.ReloadedFormIsStable | src/schema.rs:545-711 | for every accepted input, the reloaded form parses to the same list |
| ConfigForm.SaveAndReload | src/schema.rs:44-132 | parse, build the values map, parse again: the same list, for every accepted input |
| ConfigForm.FormConditionSafety | src/schema.rs:545-711 | which conditions the form can store are read alike by both kinds of sync |
| FormMeaning.AcceptedExactlyWhen | src/schema.rs:545-719 | a form is accepted and stores a condition if and only if its slots say that condition: names, operator, value, end and ids in the texts of the form |
| FormMeaning.AcceptedStoresOne | src/schema.rs:698-711 | an accepted form stores exactly one condition |
| FormMeaning.ReadExactlyWhenWritten | src/schema.rs:649-654 | a text is read as the number it writes: a sign or none, zeros in front, digits; nothing else is read |
| FormMeaning.NumbersAsTexts | src/schema.rs:648-660 | submitting a number or a text that writes it comes to the same |
| FormMeaning.TrimKeepsTheText | src/schema.rs:713-719 | trimming keeps exactly the text without the white space around it |
| FormMeaning.CategoryRefused | src/schema.rs:545-591 | a form without one of the three categories is refused for it |
| FormMeaning.FieldRefused | src/schema.rs:594-608 | no field, an unknown one and one of another category are refused as such |
| FormMeaning.StatRefused | src/schema.rs:569-590 | a game stat that is not encoded, or of an unknown type, is refused as such |
| FormMeaning.OperatorRefused | src/schema.rs:610-624 | a missing or unknown operator is refused as such |
| FormMeaning.NumberRefused | src/schema.rs:648-654 | a text that writes no number is refused |
| FormMeaning.TextRefused | src/schema.rs:636-647 | a blank text is refused |
| FormMeaning.EndRefused | src/schema.rs:656-669 | `between` without an end, or with one below the start, is refused |
| FormMeaning.IdRefused | src/schema.rs:671-697 | a field without the id it needs is refused |
| FormMeaning.SubmittedCountDecides | src/schema.rs:545-711 | from the form to the decision: an accepted form about a count compares that count with the numbers submitted |
| FormMeaning.SelectorSlotNames | src/schema.rs:50-90 | field and operator slots are named by prefix and category |
| FormMeaning.NumberSlotNames | src/schema.rs:626-629 | and so are the number slots |
| FormMeaning.FlagSlotNames | src/schema.rs:626-629 | and the flag slots |
| FormMeaning.TextSlotNames | src/schema.rs:626-629 | and the text slots |
| FormMeaning.FixedSlotNames | src/schema.rs:91-111 | the other slots have fixed names |
| EntryKeys.KeysDoNotCollide | src/tasks/opencloud_poll_worker.rs:78-79 | with the placeholder in the template, replace-all is injective in the user id |
| EntryKeys.TemplateIsInjectiveIffItHasThePlaceholder | src/routes/games.rs:1128-1142 | the handler's check is exactly injectivity |
| EntryKeys.DefaultTemplate | migrations/008_entry_key_template.sql:11-12 | the default template has the placeholder and yields the id itself |
| EntryKeys.KeyAroundTheId | src/tasks/opencloud_poll_worker.rs:78-79 | the id replaces the first placeholder, the text before it stays, and the rest follows likewise |
| EntryKeys.KeyWithoutPlaceholder | src/tasks/opencloud_poll_worker.rs:78-79 | a text without the placeholder stays as it is |
| EntryKeys.KeyOfPlainTemplate | src/tasks/opencloud_poll_worker.rs:78-79 | a plain template gives prefix, id, suffix |
| GameRegistry.SoundRegistrationsReadDistinctEntries | src/tasks/opencloud_poll_worker.rs:77-81 | every reachable registration reads different entries for different users |
| GameRegistry.Registry.CreateUniverse | src/routes/games.rs:926-1010 | accepted exactly on valid input for an unregistered pair; registrations stay sound |
| GameRegistry.NewColumns | src/routes/games.rs:964-997 | every column of a new registration, by mode |
| GameRegistry.Registry.SaveOpenCloud | src/routes/games.rs:1056-1169 | pause, reject or configure, each exactly when; registrations stay sound |
| GameRegistry.ConfiguredColumns | src/routes/games.rs:1106-1161 | every column of a saved configuration, and those that stay |
| GameRegistry.Registry.DeleteUniverse | src/routes/games.rs:1262-1291 | the last registration takes the universe's stats with it, any other leaves them |
| GameRegistry.Registry.WriteStats | src/routes/ingest.rs:118-141 | a merged write; stats then still all belong to registered universes if and only if its universe is still registered |
| StatPaths.ReadPath | src/services/roblox_open_cloud.rs:288-304 | the loop computes the recursive reading of the split path |
| StatPaths.ObjectIsReadByKey | src/services/roblox_open_cloud.rs:288-304 | an object is read by key, empty parts are skipped, a plain value holds nothing |
| StatPaths.ListIsReadByPosition | src/services/roblox_open_cloud.rs:288-304 | a list is read by position, and by nothing else |
| StatPaths.FlattenPaths | src/routes/games.rs:348-363 | one text per leaf, each leaf once, in any key order |
| StatPaths.SplitJoinedPath | src/routes/games.rs:348-363 | splitting an offered path gives its keys back |
| StatPaths.LeafIsRead | src/services/roblox_open_cloud.rs:288-304 | reading a leaf's keys gives that leaf |
| StatPaths.OfferedPathsReadBack | src/routes/games.rs:348-363 | with plain keys, offered paths are distinct and each reads back exactly its leaf |
| StatPaths.OneKeyReadsBack | src/services/roblox_open_cloud.rs:288-304 | one key reads back if and only if it is non-empty and dot-free |
| StatPaths.PathReadsBackExactlyWhenPlain | src/services/roblox_open_cloud.rs:288-304 | a list of keys reads back in every object with a leaf there if and only if every key is non-empty and dot-free |
| StatPaths.DottedKeyIsShadowed | src/routes/games.rs:348-363 | with a dotted key two leaves can be offered under one text, and reading it gives the nested one |
| StatPaths.ApplyFieldMap | src/services/roblox_open_cloud.rs:271-286 | each target gets the value of the last entry for it that finds one |
| StatPaths.LastEntryMaps | src/services/roblox_open_cloud.rs:271-286 | a target gets a value if and only if the last entry for it whose path reads anything reads that value |
| Ingest.IngestMeaning | src/routes/ingest.rs:118-141 | per user, universe and key: the last reported value, otherwise the old one; no row without a report |
| Ingest.AcceptedPositions | src/routes/ingest.rs:118-141 | the accepted ids are those of the players with an id and stats, in order, each once for each report |
| Ingest.UploadOnce | studio-plugin/src/init.server.lua:115-129 | batches of 1 to 100, all but the last full, whose concatenation is the player list |
| Ingest.BatchingDoesNotChangeTheTable | src/routes/ingest.rs:118-141 | however a list is batched and whichever batches arrive, the table is that of one pass over what arrived |
| Ingest.ConstantTimeEq | src/routes/ingest.rs:161-170 | true exactly for equal byte strings |
| Ingest.StatsTable.IngestStats | src/routes/ingest.rs:65-159 | the answer to every request, limiter and transaction included; the table merges all players or stays as it was |
| Ingest.UploadEverything | studio-plugin/src/init.server.lua:93-129 | through the webhook, whatever becomes of each request, the table is that of one pass over the players whose batches arrive; over all players if all do |
| PollWorker.Worker.SelectDue | src/tasks/opencloud_poll_worker.rs:24-31 | a due row with the oldest pull, or none is due |
| PollWorker.DueExactlyWhen | src/tasks/opencloud_poll_worker.rs:29 | due means never pulled, or the interval over |
| PollWorker.PickedFirst | src/tasks/opencloud_poll_worker.rs:30 | rows never pulled come first, then the one pulled longest ago |
| PollWorker.StampMeaning | src/tasks/opencloud_poll_worker.rs:103-106 | a stamp sets the time of every registration of the universe and nothing else |
| PollWorker.Worker.ReadEntries | src/tasks/opencloud_poll_worker.rs:77-101 | the mapped values of every user in the list it is given are merged and nothing else changes |
| PollWorker.Worker.PollOnce | src/tasks/opencloud_poll_worker.rs:14-107 | pick, read the 5000 longest-linked users (only with a usable key and a readable list) and, if the write succeeds, stamp every registration of the universe |
| PollWorker.DueRowIsPolledSoon | src/tasks/opencloud_poll_worker.rs:24-31 | with distinct universes a due registration waits for at most n-1 other stamped polls |
| PollWorker.FairExactlyForDistinctUniverses | src/tasks/opencloud_poll_worker.rs:103-106 | that holds for all pull times if and only if no two registrations share a universe |
| PollWorker.SiblingMayBePassedOver | src/tasks/opencloud_poll_worker.rs:103-106 | a registration that shares its universe can be passed over in runs of any length |
| PollWorker.LongerIntervalSiblingStarves | src/tasks/opencloud_poll_worker.rs:103-106 | two siblings alone: the one with the longer interval is never polled |
| PollWorker.SiblingIsNeverPolled | src/tasks/opencloud_poll_worker.rs:103-106 | whatever else is registered, a run that polls the sibling within the interval never polls the other |

## Left out

- ConditionAgreement.CompilerPreservesMeaning: one direction for lists of several conditions, since a list can agree by accident when another condition rejects the row; for one condition, which is all the form stores, `SingleConditionAgreement` is an equivalence.
- SyncService.Service.SyncForPlayer: performs its actions one after another; their overlap is the machine in `PlayerSync`, joined to it by `PlayerSyncUnderAnySchedule`.
- SyncService.Service.AppendChunk: never reports a gone or disabled link, as in the code.
- SystemHistory.HistoryStaysRecoverable: an unlink is no event of a history; its effect is `UnlinkRemovesEverywhere`.
- ConfigWorker.EventAnswered: speaks of events that reach the worker; a full channel drops them before (src/routes/plugin.rs:223).
- PollWorker.Worker.PollOnce: a failed stats write counts as a failed read; the fan-out of per-player syncs after a write is not part of this model.
- Ingest.UploadOnce: the JSON text of a player's stats is not modelled (Lua writes an empty table as a list).
- Bulk and per-player syncs of one link that overlap: the code takes no lock, and the stores may then differ. `SystemHistory` has them one after another.
- Mirror equality after an unlink whose removal is refused: the code clears the local rows anyway.
- HTTP and SQL transport, connection pools, routing, OAuth, sessions, encryption, HTML, the working of rate limiters, logging, status probes, environment loading and the player-list page.
- SQL text other than the quoted constants; continuation of a constant across newlines; rounding of PostgreSQL's numeric division, which here is exact.
- The range of timestamps and sub-microsecond clocks; `fetched_at`, display names and API tokens.
- Registrations without a guild, left over from an older schema; the secret rotation and the ownership probe beyond its yes or no.
- The static sections and dropdowns of the form; the validation of `view_permission`.
- The refresh schedule and its cached interval: only the row a refresh writes is modelled.
- The order in which hash maps and JavaScript objects yield their keys: any order is allowed.
