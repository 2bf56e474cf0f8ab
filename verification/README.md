# Verified model of the database workbench

This project models the parts of the workbench whose behaviour is decided by loops, state or
interleaving, and proves properties of the model for all inputs, runs or reachable states. Each
module follows one or two source files. Methods and classes mirror the loops and the updated
fields of the source; each is proved against a specification function, and the lemmas state what
that function means.

| module | component |
|---|---|
| `LogTables`, `LogIndex`, `LogRuns`, `LogTree`, `Tally` | log indexing: uploads in batches, tailed lines one by one, the counters beside them, the tree of services |
| `TeamGuards` | membership changes of concurrent transactions, statement by statement, with row locks |
| `IdentityStore` | users, teams and memberships, each transaction one step |
| `Migrations` | the migration runner: lock, transactions, errors, lost sessions, crashes |
| `SqlTokens`, `DropTarget` | the two SQL scanners and the confirmation target of a DROP |
| `TableSql` | the parameterised INSERT, UPDATE and DELETE builders |
| `EventStream` | reassembly of the tail stream in the browser |
| `SchemaDraft`, `IndexOps` | column drafts and pending index changes as operation lists |
| `TableDraft`, `TableSave`, `TableSaved` | row drafts of the table view and what saving them does |
| `RedisTree` | the key tree of the Redis view |
| `SshScan` | the bounded search for log files |
| `SchemaService` | previews of structure changes: tokens, marks, and the statements they run |
| `Handles`, `SessionStore`, `Transactions` | handles and transactions that are ended exactly once |
| `Text`, `Sorting`, `Sequences`, `Wrappers` | strings, ordered lists, sequences, options and results |

## Where the code does less than one might expect

The code is modelled as it is. Where a desired property fails for some inputs, the model has a
lemma with the exact condition and one with a concrete input.

- Uploading and tailing the same lines agree if and only if no line ends in CR or LF
  (`LogRuns.WritersAgreeExactly`). The lines of a file are numbered without gaps and repetitions
  throughout a run if and only if each step writes on from the last line stored
  (`LogRuns.RunsNumberExactly`); a line tailed into an upload that stopped half-way repeats a
  number, and so does a batch written after a line was tailed before it
  (`LogRuns.StoppedUploadRepeatsNumbers`, `LogRuns.TailedBeforeBatchRepeatsNumbers`). Buckets before
  the epoch start after their entries (`LogTables.BucketContains`).
- Re-adding the only team admin as a plain member leaves the team without an admin
  (`IdentityStore.RunsKeepAdminsExactly`, `IdentityStore.UpsertDemotesTheOnlyAdmin`). Between the
  statements of other transactions it does so exactly if no other admin is left, or none besides
  the member a guarded change is about to take away (`TeamGuards.RunsStaySafeExactly`,
  `TeamGuards.UpsertCanUndoTheGuard`).
- The scanners differ exactly on white space that only JavaScript knows and on texts that end inside
  an open block comment with a character that is not ASCII (`SqlTokens.ScannersAgreeExactly`,
  `SqlTokens.FormFeedSplits`, `SqlTokens.OpenCommentDiffers`), and the confirmation target of a
  quoted name differs between browser and server (`DropTarget.DatabaseTargets`,
  `DropTarget.TableTargets`).
- Replacing a column by a new one of the same name, swapping two names, and renaming onto the key
  column do not give the structure shown (`SchemaDraft.DiffGivesWhatIsShownExactly`,
  `SchemaDraft.ReplacedColumnFails`, `SchemaDraft.SwappedNamesFail`,
  `SchemaDraft.RenamedOntoKeyLosesIt`). On MySQL nor does deleting the key column, or giving a
  table its first key (`SchemaDraft.DeletedKeyColumnFails`, `SchemaDraft.FirstKeyFails`). An index
  with an empty name is dropped and still shown (`IndexOps.NamelessDropIsHidden`).
- Editing one cell of a row clears its other cells that hold only blanks
  (`TableSaved.BlankCellIsCleared`), and an edited key is shown, not saved, and gone with the
  draft (`TableSaved.KeyEditIsLost`).
- Folder, separator and display name give a Redis key back for every key only with a separator of
  one UTF-16 code unit (`RedisTree.DisplayNamesExactly`).
- A scan can be marked truncated with nothing missing (`SshScan.MarkedWithNothingMissing`); it lacks
  a log file exactly if the listing exceeds the limit or a file lies too deep
  (`SshScan.MissesExactly`).
- A failed PostgreSQL run reports statements as successful that were rolled back
  (`SchemaService.RolledBackReportedExactly`).
- A preview starts at most once exactly if no two token texts read as the same preview, for the
  mark is on the text (`SchemaService.StartsOncePerPreviewExactly`); the decoder passes over line
  feeds, so a token with one after it is a second text (`SchemaService.LineFeedIsSecondText`). Tokens
  that come in as they were signed start once all the same (`SchemaService.SignedTextsStartOnce`).
- Each restart of the service lets a token start once more, exactly if it still passes the checks
  that do not look at the marks (`SchemaService.RestartAdmitsExactly`,
  `SchemaService.StartsAreBounded`, `SchemaService.RestartsStartAgain`).
- The statements start on another structure than the previewed one exactly if it differs at the
  start from what was read when the request came (`SchemaService.DriftedStartExactly`,
  `SchemaService.LateDriftIsNotSeen`).
- A handle put into an unknown session is neither kept nor closed (`SessionStore.Store.PutHandle`).

## Model

| member | source | states |
|---|---|---|
| LogTables.FirstPatternDecides | api/internal/logs/store.go:902-930 | the first pattern that knows the trimmed line decides, a blank line is empty and one no pattern knows is its own message; only a missing timestamp is carried over, and line ends do not matter |
| LogTables.BucketContains | api/internal/logs/store.go:433 | truncating division puts a timestamp into the bucket that contains it exactly at or after the epoch and at negative multiples; the bucket at the epoch receives two minutes |
| LogTables.BatchIsOneByOne | api/internal/logs/store.go:643-716 | the tables after a batch written in one transaction are those after its entries added one by one |
| LogTables.AddEntriesCounters | api/internal/logs/store.go:643-716 | adding entries keeps every scope and bucket counter equal to the count of the entries |
| Tally.DeltasAreFold | api/internal/logs/store.go:648-710 | gathering per key and writing one delta per key, in any key order, equals counting row by row |
| Tally.FoldAt | api/internal/logs/store.go:699-710 | the total and errors of a key after counting are the old ones plus the hits with that key |
| LogIndex.LogStore.AppendTailLine | api/internal/logs/store.go:355-455 | an unknown file or a failing statement changes nothing; otherwise entry, scope, bucket and file row change together |
| LogIndex.LogStore.CreateTailFile | api/internal/logs/store.go:306-353 | entries and counters stay and agree as before; the first line tailed into the new file gets number 1 |
| LogIndex.LogStore.AddFile | api/internal/logs/store.go:235-304 | success stores every line and the line total; failure leaves a total of zero next to a prefix of whole batches of 5000 lines, or next to all lines when only the last update fails |
| LogIndex.LogStore.Flush | api/internal/logs/store.go:643-716 | a failed flush leaves no trace, a successful one adds exactly the batch's entries and counters |
| LogIndex.LogStore.WriteDeltas | api/internal/logs/store.go:699-710 | the bucket upserts in any order equal counting the batch row by row |
| LogIndex.LogStore.GatherDeltas | api/internal/logs/store.go:648-665 | the gathered deltas are the counts of the batch |
| LogIndex.LogStore.IndexFile | api/internal/logs/store.go:631-749 | for every batch size the entries stored are a prefix of the file's entries, all of them on success; a failure leaves whole batches and loses at most one |
| LogRuns.TailingIsUploadingTrimmed | api/internal/logs/store.go:355-455 | tailing lines into a new file leaves the tables of uploading the same lines without trailing CR and LF |
| LogRuns.WritersAgreeExactly | api/internal/logs/store.go:631-749 | both writers leave the same tables if and only if no line ends in CR or LF |
| LogRuns.CountersAlwaysAgree | api/internal/logs/store.go:399-453 | after any interleaving of batches and tailed lines, stopped uploads included, scope and bucket counters equal the counts of stored entries |
| LogRuns.AppendContinuesNumbersExactly | api/internal/logs/store.go:369-421 | a tailed line continues the numbering if and only if the file's recorded total is the number of lines stored |
| LogRuns.RunsNumberExactly | api/internal/logs/store.go:369-421 | in every interleaving of uploads and tails each file's lines are numbered from 1 without gaps or repetitions at every point if and only if every step writes on from the last line stored |
| LogRuns.LinesAreNumbered | api/internal/httpapi/log_handlers.go:315-360 | so it is in particular in every run that tails only into files that are not being uploaded and whose upload did not stop |
| LogRuns.StoppedUploadRepeatsNumbers | api/internal/logs/store.go:717-748 | a run in which a line tailed into a stopped upload gets number 1 a second time |
| LogRuns.TailedBeforeBatchRepeatsNumbers | api/internal/logs/store.go:631-749 | a run in which a batch repeats the number of a line tailed before it |
| LogTree.Tree | api/internal/logs/store.go:540-565 | each service once, in the order of first rows, with exactly its rows as nodes and their sum as its count |
| LogTree.TreeSumsToEntries | api/internal/logs/store.go:527-565 | the counts of the tree sum to the number of stored entries |
| LogTree.TreeOfEveryRun | api/internal/logs/store.go:527-565 | at every point of every run of uploads and tails the counts of the tree sum to the number of stored entries |
| TeamGuards.EveryRunKeepsTeamAdmins | api/internal/identity/store.go:497-553 | in every interleaving of role changes, removals and upserts each committed state has an admin in every team, if each upsert is harmless: it demotes nobody, or leaves another admin, and one besides the target of each guarded change about to commit |
| TeamGuards.RunsStaySafeExactly | api/internal/identity/store.go:467-553 | at every point every team has an admin and keeps one, whatever the transactions under way do, if and only if every upsert of the run is harmless |
| TeamGuards.HarmIsUnsafe | api/internal/identity/store.go:467-495 | after any other upsert a team is left without an admin at once or by the commit of a guarded change |
| TeamGuards.StepKeepsInv | api/internal/identity/store.go:497-553 | every statement keeps the locks, targets, guards and the admin of every team |
| TeamGuards.OneGuardPasses | api/internal/identity/store.go:875-910 | two transactions on one team cannot both be past the guard |
| TeamGuards.StartGuardExcludes | api/internal/identity/store.go:891-896 | the rows a guard sets out to lock contain the target of every guard under way on the team |
| TeamGuards.GuardProgressExcludes | api/internal/identity/store.go:891-896 | a guard can neither lock nor skip the row another guard on the team will change |
| TeamGuards.CommitKeepsTeams | api/internal/identity/store.go:514-525 | the commit of a guarded change leaves every team an admin |
| TeamGuards.UpsertCanUndoTheGuard | api/internal/identity/store.go:467-495 | a run with a re-added member in which the guard passes and the team ends without an admin |
| IdentityStore.Store.BootstrapAdmin | api/internal/identity/store.go:79-117 | succeeds exactly into an empty table of users, and then its user is the only enabled system admin; tables stay sound |
| IdentityStore.Store.CreateUser | api/internal/identity/store.go:146-181 | success adds one user under a name nobody else has and changes no other row; tables stay sound, someone rules, teams keep their admins |
| IdentityStore.Store.CreateTeam | api/internal/identity/store.go:183-208 | success adds one team whose only admin is its creator and changes no other row; tables stay sound |
| IdentityStore.Store.UpdateUser | api/internal/identity/store.go:210-315 | no other user changes and an enabled system admin stays; refused as the last system admin exactly when the only one takes the role away from itself |
| IdentityStore.Store.DeleteUser | api/internal/identity/store.go:317-403 | refused as the last team admin exactly when the user is the only admin of some team, never as the last system admin; otherwise the row goes with its memberships and its references pass to the actor |
| IdentityStore.Store.UpdateTeam | api/internal/identity/store.go:405-443 | team names stay unique, no other team and no membership changes |
| IdentityStore.Store.DeleteTeam | api/internal/identity/store.go:445-465 | success leaves no membership of the team, and every membership of other teams stays |
| IdentityStore.Store.AddTeamMember | api/internal/identity/store.go:467-495 | no other membership changes; every team keeps an admin if and only if it did not make a plain member of a team's only admin |
| IdentityStore.Store.SetTeamMemberRole | api/internal/identity/store.go:497-526 | refused as the last team admin exactly when an authorised caller would demote the team's only admin; no other membership changes, teams keep their admins |
| IdentityStore.Store.RemoveTeamMember | api/internal/identity/store.go:528-553 | refused as the last team admin exactly when an authorised caller would remove the team's only admin; no other membership changes, teams keep their admins |
| IdentityStore.Store.SetUserTeamMemberships | api/internal/identity/store.go:555-637 | all checks and guards before any change, all changes or none; teams keep their admins |
| IdentityStore.LastSystemAdminExactly | api/internal/identity/store.go:210-315 | the guard refuses an update exactly when the only enabled system admin takes the role away from itself |
| IdentityStore.LastTeamAdminExactly | api/internal/identity/store.go:340-376 | a deletion is refused for a guard exactly when the user is the only admin of some team; the guard on system admins never refuses, for the actor is another one |
| IdentityStore.ReassignedIs | api/internal/identity/store.go:612-630 | afterwards the user is in exactly the teams asked for with the roles asked for, and nobody else's membership has changed |
| IdentityStore.NextIsSound | api/internal/identity/store.go:934-947 | every transaction keeps keys, references, unique names and role checks |
| IdentityStore.NextKeepsRule | api/internal/identity/store.go:912-928 | every transaction keeps an enabled system admin, and users never run out |
| IdentityStore.NextKeepsAdminsExactly | api/internal/identity/store.go:891-910 | a transaction keeps an admin in every team if and only if it is not an upsert that demotes a team's only admin |
| IdentityStore.EveryRunKeepsRule | api/internal/identity/store.go:79-117 | in every run from the empty store the tables are sound and after bootstrap someone is an enabled system admin |
| IdentityStore.RunsKeepAdminsExactly | api/internal/identity/store.go:467-495 | a run keeps an admin in every team at every point if and only if none of its calls demotes a team's only admin by re-adding it |
| IdentityStore.UpsertDemotesTheOnlyAdmin | api/internal/identity/store.go:467-495 | three calls after which a team has no admin |
| Migrations.SortMigrationFiles | api/internal/migrate/migrate.go:51-59 | a bad name is reported and nothing moves; otherwise the array is its own permutation ordered by name |
| Migrations.OneOrder | api/internal/migrate/migrate.go:28-59 | files with distinct names have one order, so all runners share one list |
| Migrations.Database.ApplyFile | api/internal/migrate/migrate.go:158-190 | recorded files are skipped, broken ones leave no trace, others take effect and are recorded together |
| Migrations.Database.ApplyMigrations | api/internal/migrate/migrate.go:69-109 | continues after the applied prefix and stops before the first broken file; success means the whole list |
| Migrations.OneOwner | api/internal/migrate/migrate.go:69-109 | at most one runner with a live session is past the lock |
| Migrations.CommitAppends | api/internal/migrate/migrate.go:158-190 | a committed file is the next one of the list |
| Migrations.EveryRunIsSafe | api/internal/migrate/migrate.go:69-190 | over every run of any number of runners with errors, lost sessions and crashes: effects are a growing prefix, recorded exactly when committed, no pooled connection holds the lock, and success means one clean run's state |
| Migrations.RerunReachesCleanState | api/internal/migrate/migrate.go:69-109 | after any history a rerun that finds the lock free can by its own steps alone put every file into effect and on record, release the lock and return success |
| SqlTokens.Tokenize | api/internal/query/risk.go:54-113 | the imperative server scanner computes the specified tokens, texts and depths, of the bytes it is given |
| SqlTokens.TokenizeSql | web/src/features/workspace/ddl.ts:82-144 | the imperative browser scanner computes the specified tokens |
| SqlTokens.ScannersAgreeExactly | api/internal/query/risk.go:54-113 | without quoted tokens the browser's list, in UTF-8, is the server's list of the text's bytes if and only if no token holds white space only JavaScript knows and the text does not end inside an open block comment with a character that is not ASCII |
| SqlTokens.GoBytes | api/internal/query/risk.go:69-76 | but for such an end the server's tokens of the bytes are those of the characters, encoded |
| SqlTokens.ScannersAgree | web/src/features/workspace/ddl.ts:82-144 | they agree on every text that ends in an ASCII character and whose only white space is space, tab, CR and LF |
| SqlTokens.QuoteTextIsSlice | web/src/features/workspace/ddl.ts:105-125 | a quoted token is exactly the quoted slice of the text |
| SqlTokens.FormFeedSplits | api/internal/query/risk.go:115-117 | a form feed inside a word splits it in the browser only |
| SqlTokens.OpenCommentDiffers | api/internal/query/risk.go:69-76 | an open block comment before a letter with an accent: the browser scans the letter, the server its second byte |
| DropTarget.Classify | api/internal/query/risk.go:25-52 | UPDATE and DELETE need confirmation exactly without a WHERE outside parentheses; DROP and TRUNCATE carry their target |
| DropTarget.ExtractDropConfirmationTarget | web/src/features/workspace/ddl.ts:147-159 | the loop finds the first token after the object words that is not skipped |
| DropTarget.DatabaseTargets | web/src/features/workspace/ddl.ts:68-71 | both sides compute the same target if and only if the database name is a valid identifier, and then the full name unless it is a skipped word |
| DropTarget.TableTargets | web/src/features/workspace/ddl.ts:73-78 | both sides compute the same target if and only if the first identifier is valid; with valid identifiers it is the full dropped name |
| TableSql.SortedKeys | api/internal/table/service.go:166-173 | every key once in ascending order, whatever the map's order |
| TableSql.ListsOnce | api/internal/table/service.go:166-173 | there is only one such list |
| TableSql.ReadQuoted | api/internal/table/service.go:35-47 | a quoted identifier reads back as itself whatever quote characters it holds |
| TableSql.ReadPrinted | api/internal/table/service.go:159-164 | a placeholder reads back as the argument it was printed for, for both drivers |
| TableSql.ReadAssignments | api/internal/table/service.go:146-157 | joined assignments read back as the columns with their argument positions |
| TableSql.Predicates | api/internal/table/service.go:146-157 | succeeds exactly on valid names, appends the values of the sorted columns and numbers the placeholders after the earlier arguments |
| TableSql.BuildUpdate | api/internal/table/service.go:49-77 | succeeds exactly on a key, a changed value and valid names; its text reads back as schema, table, changed and key columns, each bound to its own value |
| TableSql.BuildDelete | api/internal/table/service.go:79-93 | succeeds exactly on a key and valid names; its text reads back as the mutation |
| TableSql.BuildInsert | api/internal/table/service.go:95-114 | succeeds exactly on a value and valid names; its text reads back as the mutation, one argument per column |
| EventStream.TailSsh | web/src/logs/client.ts:218-233 | for every way of cutting the stream the events are those of the uncut text |
| EventStream.DeliveredStays | web/src/logs/client.ts:221-233 | an event delivered stays delivered whatever follows |
| EventStream.DeliversPayloads | api/internal/httpapi/log_handlers.go:332-342 | on the server's framing exactly the payloads sent arrive, in order |
| EventStream.InterruptedFrame | web/src/logs/client.ts:221-233 | a stream interrupted inside a frame delivers exactly the complete frames |
| SchemaDraft.DiffColumns | web/src/features/schema/schemaDraft.ts:10-53 | the loops, the key and the last filter amount to drops of unclaimed columns, each row's edits, and the key operation |
| SchemaDraft.EditRuns | web/src/features/schema/schemaDraft.ts:28-41 | one row's operations move its column to the new name with the new definition, on MySQL and PostgreSQL, where a key column stays NOT NULL |
| SchemaDraft.RunsExactly | web/src/features/schema/schemaDraft.ts:10-53 | the operations are never refused if and only if every row's name is free at its turn, MySQL keeps a column, and the key column if there is a key operation, and PostgreSQL is not asked for a nullable key |
| SchemaDraft.DiffGivesWhatIsShownExactly | web/src/features/schema/schemaDraft.ts:10-53 | applying the operations gives the columns shown, key and NOT NULL included, if and only if none is refused, a key of unchanged name is the same column, and no column that has or had the key is shown as nullable |
| SchemaDraft.ApartDraftsApply | web/src/features/schema/schemaDraft.ts:10-53 | drafts whose new and renamed-to names are no other column's name give what is shown if and only if MySQL keeps a column, and the key column if there is a key operation, and no column that has or had the key is shown as nullable |
| SchemaDraft.UntouchedGivesNothing | web/src/features/schema/schemaDraft.ts:10-53 | an untouched draft gives the empty list |
| SchemaDraft.ReplacedColumnFails | web/src/features/schema/schemaDraft.ts:52 | a column dropped and added again under its name: the add meets the old column |
| SchemaDraft.SwappedNamesFail | web/src/features/schema/schemaDraft.ts:28-30 | two columns that swap names: the first rename meets the second column |
| SchemaDraft.RenamedOntoKeyLosesIt | web/src/features/schema/schemaDraft.ts:45-50 | a column renamed onto the dropped key column leaves the table without a key |
| SchemaDraft.DeletedKeyColumnFails | api/internal/schema/generate.go:130-133 | the key column is deleted: on MySQL the key is dropped after it is gone, PostgreSQL gives what is shown |
| SchemaDraft.FirstKeyFails | api/internal/schema/generate.go:114-121 | a table without a key is given one: MySQL is to drop the key there is not |
| IndexOps.ResolveIndexes | web/src/features/schema/indexOps.ts:4-16 | the loop over the pending operations gives the shown list, sorted |
| IndexOps.ReplaceIndex | web/src/features/schema/indexOps.ts:25-37 | after a pending list whose new name is free the result runs too and gives the old result with the one index replaced |
| IndexOps.DropIndexOps | web/src/features/schema/indexOps.ts:40-50 | after a pending list the result runs too and gives the old result without the one index |
| IndexOps.PendingExecutes | web/src/features/schema/indexOps.ts:4-50 | a list that leaves, drops, or drops and re-adds each base index and adds others once runs on the base indexes |
| IndexOps.StepPending | web/src/features/schema/indexOps.ts:19-50 | each add, edit or delete of the user keeps the list of that shape and changes exactly the index it names |
| IndexOps.SessionsExecute | web/src/features/schema/indexOps.ts:4-50 | after any session the list runs, gives exactly what is shown, and that is what the edits meant |
| IndexOps.SessionsExecuteExactly | web/src/features/schema/indexOps.ts:7-9 | every session shows what it executes if and only if no base index has an empty name |
| TableDraft.BuildRowUpdate | web/src/features/table/tableMutations.ts:45-63 | nothing, or the original key and exactly the non-key columns whose coerced value differs |
| TableDraft.CompactDraft | web/src/features/table/tableMutations.ts:70-89 | keeps exactly the effective edits; null exactly when nothing is left |
| TableSave.ApplyDraft | web/src/features/table/TableView.tsx:191-212 | deletes, updates by row, inserts, up to the first refusal; a dirty draft goes away only when all went through |
| TableSaved.ReachedIsGood | web/src/features/table/TableView.tsx:132-189 | every draft reached by editing, adding and deleting refers to live rows, deletes each once, and holds only original or coerced cells |
| TableSaved.MutationsRun | web/src/features/table/TableView.tsx:191-204 | on a keyed table each mutation affects exactly its own row, so none is refused |
| TableSaved.SavingGivesDisplayExactly | web/src/features/table/TableView.tsx:93-115 | for every reachable draft, whatever other rows the table holds, saving runs through and leaves those rows alone, and the rest is what was displayed, cell by cell, if and only if every edited cell survives being sent |
| TableSaved.StableRowsSave | web/src/features/table/TableView.tsx:191-204 | so it is when no key is edited and coercion leaves the original cells alone |
| TableSaved.CompactsExactly | web/src/features/table/tableMutations.ts:70-94 | a draft compacts to nothing if and only if it sends nothing and edits no key column |
| TableSaved.BlankCellIsCleared | web/src/features/table/tableMutations.ts:21-34 | editing one cell saves another, blank, cell as null |
| TableSaved.KeyEditIsLost | web/src/features/table/tableMutations.ts:53-54 | an edited key is displayed and not saved |
| RedisTree.Node.InsertKey | web/src/features/redis/redisKeyHierarchy.ts:32-45 | the in-place insertion makes exactly the specified nodes |
| RedisTree.BuildRedisKeyTree | web/src/features/redis/redisKeyHierarchy.ts:69-73 | inserting all keys and converting gives the specified tree |
| RedisTree.CountNode | web/src/features/redis/redisKeyHierarchy.ts:26-30 | the loop counts the keys at and below a node |
| RedisTree.CountIsEntries | web/src/features/redis/redisKeyHierarchy.ts:26-30 | that count is the number of keys placed below |
| RedisTree.FolderPathForKey | web/src/features/redis/redisKeyHierarchy.ts:75-83 | the loop gives the joined prefixes of all parts but the last |
| RedisTree.InsertedEntries | web/src/features/redis/redisKeyHierarchy.ts:32-45 | an insertion adds one key at the end of its way and leaves every other where it was |
| RedisTree.InsertedPlaced | web/src/features/redis/redisKeyHierarchy.ts:38-43 | sibling names stay distinct and every folder's prefix spells its place |
| RedisTree.TreeHoldsKeys | web/src/features/redis/redisKeyHierarchy.ts:47-73 | each key is in the tree exactly once, under exactly the folders its path names; counts are right, sibling folders distinct and sorted |
| RedisTree.DisplayNameExactly | web/src/features/redis/redisKeyHierarchy.ts:61-63 | inside a folder prefix, separator and display name give a key back exactly when the last separator starts one short of the name |
| RedisTree.DisplayNamesExactly | web/src/features/redis/redisKeyHierarchy.ts:61-63 | they give every key back if and only if the separator is one UTF-16 code unit |
| SshScan.Limited | api/internal/sshlog/service.go:131-142 | the depth and file limits lie between 1 and 20 and 1 and 10000 |
| SshScan.Walker.Walk | api/internal/sshlog/service.go:155-200 | the recursive closure computes the specified entries and mark, and fails only on a cancelled context |
| SshScan.Scan | api/internal/sshlog/service.go:126-205 | the result is the first files of the plain listing; unmarked, it is the whole listing at every larger depth; and the mark is characterised exactly |
| SshScan.FoldTruncatedExactly | api/internal/sshlog/service.go:160-175 | a result is marked exactly when a look goes below the depth limit or is taken with the result full |
| SshScan.ListingIsReach | api/internal/sshlog/service.go:155-200 | the listing holds exactly the log files reachable through at most the allowed directories, however equal names are ordered |
| SshScan.EachFileOnce | api/internal/sshlog/service.go:155-200 | where directories name no file twice, each of them is listed exactly once |
| SshScan.MissesExactly | api/internal/sshlog/service.go:126-205 | a result lacks a log file below the directory if and only if the listing has more files than the limit or some log file lies too deep for it |
| SshScan.MissingIsMarked | api/internal/sshlog/service.go:160-180 | a result that lacks a log file is marked |
| SshScan.MarkedWithNothingMissing | api/internal/sshlog/service.go:160-180 | a result marked truncated from which nothing is missing |
| SchemaService.Service.Preview | api/internal/schema/service.go:41-51 | the token reads back as dialect, scope, fingerprint, expiry and statements |
| SchemaService.Service.Execute | api/internal/schema/service.go:52-108 | refused requests change nothing, not even the mark; admitted ones mark the token and leave the reports, the error and the statements specified |
| SchemaService.Service.RunStatements | api/internal/schema/service.go:85-102 | the loop reports successes up to the first failure, applied at once on MySQL and pending on PostgreSQL |
| SchemaService.EffectsAre | api/internal/schema/service.go:75-108 | on MySQL exactly the statements reported successful are applied, a prefix; on PostgreSQL all or none |
| SchemaService.RolledBackReportedExactly | api/internal/schema/service.go:85-102 | a failed PostgreSQL run reports statements as successful that are not applied exactly when one went through before the failure |
| SchemaService.SignedReads | api/internal/schema/service.go:110-140 | a signed token splits into its two parts and reads as what was signed |
| SchemaService.LineFeedIsSecondText | api/internal/schema/service.go:117-127 | a token with a line feed after it reads as the same preview |
| SchemaService.EveryRunApplies | api/internal/schema/service.go:52-108 | in every interleaving whatever started was in scope, on the presented structure and confirmed, and the applied statements are right at every point |
| SchemaService.StartedWerePreviewed | api/internal/schema/service.go:41-62 | whatever started was previewed earlier in the run, for its scope and on the structure presented |
| SchemaService.EveryRunStartsOnce | api/internal/schema/service.go:68-74 | without a restart the statements of one token text start at most once |
| SchemaService.StartsOncePerPreviewExactly | api/internal/schema/service.go:68-74 | in all runs without a restart each preview starts at most once if and only if no two texts read as the same preview |
| SchemaService.TwoTextsStartTwice | api/internal/schema/service.go:68-74 | a run without a restart in which two texts start one preview twice |
| SchemaService.SignedTextsStartOnce | api/internal/schema/service.go:68-74 | in a run without a restart whose tokens come in as they were signed each preview starts at most once |
| SchemaService.StartsAreBounded | api/internal/schema/service.go:29-40 | in every run a token starts at most once, and once more for each restart |
| SchemaService.RestartAdmitsExactly | api/internal/schema/service.go:29-40 | from any state a restart lets a token start again if and only if it passes the checks other than the mark |
| SchemaService.RestartsStartAgain | api/internal/schema/service.go:29-40 | the bound is reached: for every n a run with n restarts and n further starts |
| SchemaService.DriftedStartExactly | api/internal/schema/service.go:60-74 | whatever happens after the structure was read, an admitted execution starts on another structure than the previewed one if and only if it is not the one read |
| SchemaService.LateDriftIsNotSeen | api/internal/schema/service.go:60-62 | a run in which the structure changes after it was read and the statements start all the same |
| Handles.SweepKeeps | api/internal/session/store.go:149-167 | a sweep leaves every handle held once, taken, or ended once |
| Handles.AnyOrderSweeps | api/internal/session/store.go:153-164 | the sweep's loop has one result whatever the order of the entries |
| SessionStore.Store.CreateSession | api/internal/session/store.go:29-39 | the new session holds no connection, and no handle changes its place |
| SessionStore.Store.PutHandle | api/internal/session/store.go:51-65 | a known session keeps the handle under the new id; an unknown one gets the empty id and nothing happens |
| SessionStore.Store.GetHandle | api/internal/session/store.go:74-83 | the handle, whose last use becomes now |
| SessionStore.Store.ReplaceHandle | api/internal/session/store.go:120-133 | the old handle is closed once and the new one takes its place, or the new one is left to the caller |
| SessionStore.Store.Delete | api/internal/session/store.go:140-147 | the handle is closed once and the entry removed |
| SessionStore.Store.CloseIdle | api/internal/session/store.go:149-167 | exactly the idle entries are closed, removed and counted |
| SessionStore.EveryHandleInItsPlace | api/internal/session/store.go:51-167 | at every point of any run each accepted handle is open and held by one entry, or removed and closed exactly once |
| SessionStore.UsedHandlesSurviveExactly | api/internal/session/store.go:149-167 | a handle survives a sweep exactly when the time since its use is below the limit |
| Transactions.TransactionService.Begin | api/internal/query/transaction.go:32-42 | one more open transaction under its scope |
| Transactions.TransactionService.Get | api/internal/query/transaction.go:44-53 | the transaction of the same scope, whose last use becomes now |
| Transactions.TransactionService.TakeOut | api/internal/query/transaction.go:87-96 | one caller of the right scope gets the transaction out of the table |
| Transactions.TransactionService.CommitOrRollback | api/internal/query/transaction.go:55-69 | not found and nothing happens, or taken out and ended once as asked |
| Transactions.TransactionService.CloseIdle | api/internal/query/transaction.go:71-85 | exactly the idle transactions are rolled back, none committed |
| Transactions.EveryTransactionEndsOnce | api/internal/query/transaction.go:32-96 | at every point of any interleaving each transaction is held once, with its one taker, or ended exactly once |
| Transactions.UsedTransactionsSurviveExactly | api/internal/query/transaction.go:71-85 | a transaction survives a sweep exactly when the time since its use is below the limit |

## Left out

- HTTP routing, cookies and CSRF, React rendering, Monaco: plumbing without decisions of their own.
- Cryptography: only what was previewed reads as signed; the encodings are functions with the laws
  used, fingerprints and ids are given, password hashes are not modelled.
- Log sessions other than one, entry ids, authorisation, search and timelines of the log store; the
  timestamp, level and message patterns of a line are parameters, the fallback is modelled exactly.
- LogTables.FirstPatternDecides: the five pattern functions themselves (regular expressions, JSON,
  time zones) are abstract.
- TeamGuards.EveryRunKeepsTeamAdmins: interleaved `DeleteUser`, `SetUserTeamMemberships` and the
  system-admin check are not interleaved statement by statement; `IdentityStore` has them as single steps.
- IdentityStore.Store.UpdateUser: texts come trimmed, user names in lower case, and the password is
  only checked for length; connections, log sessions and audit rows that refer to users are not modelled.
- Migrations.EveryRunIsSafe: the text of the migrations is opaque; a migration either takes effect
  with its record or leaves no trace.
- Migrations.SortMigrationFiles: the library sort is any permutation in order, so the sort itself is
  one step of the model.
- Upper and lower case, and the white space of comments in `SchemaDraft`, are those of ASCII;
  `localeCompare` is any total preorder.
- SchemaDraft.DiffGivesWhatIsShownExactly: the effect of each operation on a table is defined here
  from the statements of api/internal/schema/generate.go:21-186; refusals of invalid names, types and
  defaults, those that depend on the rows, on other objects or on AUTO_INCREMENT, column names that
  differ in case only, and a PostgreSQL key whose constraint does not have the default name are not modelled.
- TableDraft.UpdateCell: JSON objects and arrays as cells are not modelled, and reading a numeral as a
  number is a parameter.
- TableSave.ApplyDraft: the key comparison of the database is equality of JSON cells.
- RedisTree.BuildRedisKeyTree: the empty key with an empty separator, on which the source calls itself
  without end, is excluded.
- SqlTokens.TokenizeSql: text is a sequence of code points; where the source scans the second half of a
  surrogate pair, at the end of an open block comment, the token here is the whole character. The server
  scans one byte there, so the lists differ either way.
- RedisTree.Node.InsertKey: the nodes are mutable, and converting them reads them as a value.
- SshScan.Scan: dialling, validating the path and the SFTP client are parameters; file names are
  taken not to contain a slash.
- SchemaService.Service.Execute: a failed commit leaves no trace, and a statement cut off by a restart
  has no effect.
- SchemaService.RestartAdmitsExactly: the scope is a parameter; the routes put a session id into it
  that is drawn anew after a restart.
- SessionStore.Store.PutHandle: the id it draws is a parameter that is not in use; `nil` handles,
  `ReplaceDatabase` and the nested map as two levels are not modelled.
- Transactions.TransactionService.Begin: the new id is a parameter that is not in use.
- Paging, access rules, network policy and configuration parsing: easy cases.
