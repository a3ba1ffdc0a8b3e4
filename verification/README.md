# pgmanager: models and proofs

pgmanager runs a PostgreSQL server behind PgBouncer for a small team: a web
application (Go, with a TypeScript front end) manages databases, database users,
login accounts and TLS, and a recovery CLI and a container script work beside it.
This project models the parts of it that are algorithms or protocols, and proves
what they keep.

| modules | what they model |
|---|---|
| `TlsRestart` | the certificate handlers and the PgBouncer watcher as two processes that communicate through files, interleaved one file step at a time |
| `Hba`, `HbaBlocks` | pg_hba.conf as generated text, a first-match reader of that text, the access policy, and the address ranges it amounts to |
| `PgBouncerIni`, `PgBouncerSettings` | the two rewrites of pgbouncer.ini as functions on text |
| `PgBouncerFiles` | the loops that produce these files, over mutable file contents |
| `Accounts` | login accounts, sessions and setup: web handlers and CLI as steps over tables, compared with a history |
| `AccountRules`, `DevAccess` | when each of these requests is served, and which databases dev accounts may open, told from the requests before |
| `AdminRaces` | the role handlers again, with their statements interleaved |
| `Privileges`, `Clusters`, `ClusterRuns` | access lists, the user and database requests as steps over roles, grants and metadata rows, and their loops as operations on sets |
| `Ledgers`, `AllowLists` | the allow-lists and creation times of the same rows, and which clients the generated file lets in as the requests go by |
| `ClusterSafety`, `ClusterExactness`, `ClusterLimits` | what every run keeps, what successful runs keep, and where the provisos come from |
| `ClusterRules`, `LevelMeanings` | when each request is served, what a run adds up to for each user, and what the levels permit, privilege by privilege |
| `ClusterAdmin` | the same requests as methods that issue one statement after another |
| `ServedDatabases`, `Restarts`, `TlsText` | the database requests and the pgbouncer.ini rebuild together; the rebuilds, the restarts and their TLS lines on the one file |
| `SqlText`, `DataStatements`, `DataHandlers` | quoting, the data statements with a parser and a binder for them, and the loops that render them |
| `RowPredicate` | the conditions by which the grid addresses a row, in three-valued logic |
| `ColumnTypes`, `ColumnEdit` | type strings and the ALTER plan of the edit-column dialog |
| `CsvExport` | the CSV export and a reader for it |
| `Text`, `Prelude` | string functions of Go's standard library, and two value types |

Code that changes state is a class or a method with loops, proved equal to a
function on values; the results are lemmas about that function and about runs of it.

Some promises hold only with a condition. Each is stated with its exact condition,
or with an input that shows the condition is needed:

- An allow-list entry without a slash names one address only for IPv4; an IPv6
  address becomes a /32 block as well (`Hba.PlainEntryIsOneAddressIff`).
- A user's allow-list goes with the user's first database when the next row got the
  column default, whether it is removed or left out of an update
  (`AllowLists.RemovalKeepsAnswersByOrigin`, `AllowLists.UpdateKeepsAnswersByOrigin`,
  `AllowLists.VisitorLetIn`).
- Every restart serves every database again until the next rebuild
  (`Restarts.RestartReopensUntilRebuild`).  A rebuild while PgBouncer starts is lost, and so
  is every rebuild while it requires TLS, because RELOAD is sent with sslmode=disable
  (`Restarts.ServedIsLastMeantIff`, `Restarts.RebuildMissedAtStart`,
  `Restarts.TlsServesWhatItStartedWith`).
- The edit-column dialog rewrites a type it shows untouched when that is one of the three
  with parameters in another spelling (`ColumnTypes.NormalizeFixedIff`).
- Appended pool settings land in [databases] when that is the last section, and the
  next rebuild of that section drops them (`PgBouncerSettings.RewritesCommuteIff`).
- A dev account demoted by the CLI keeps its databases for the day it becomes one again
  (`DevAccess.DemotionDropsRowsIff`).
- The guards for the last administrator refuse no web request that is served alone
  (`AccountRules.UpdateServedIff`); they are there for races.
- The last administrator can go if an account is promoted between another request's
  role read and its write (`AdminRaces.LosesLastAdminIff`).
- UpdateUser checks the access level only after the database diff, and does not
  refuse template0 (`ClusterLimits.CoverKeptIff`).  Nor does it refuse template1, whose
  access lists every database created later copies
  (`ClusterExactness.CreateDatabaseExactIff`, `ClusterLimits.NewDatabaseIsCleanIff`).
- DeleteUser takes the rows of the application's own role, which the server keeps with
  its privileges (`ClusterExactness.DeleteUserExactIff`).
- A rolled-back CreateUser leaves its metadata rows and so blocks some retries
  (`ClusterLimits.RetrySucceedsIff`).
- DeleteDatabase leaves managed_users rows (`ClusterExactness.DeleteDatabaseExactIff`,
  `ClusterExactness.RecreatedDatabaseHasOldRow`).

Where the code and its documentation differ the model follows the code:
docs/architecture.md:109 shows `<ip>/32` for every allow-list entry, while the code
appends it only to entries without a slash; docs/architecture.md:13 says the system
databases cannot be modified through the UI, while UpdateUser grants on them.

## Model

| member | source | states |
|---|---|---|
| `TlsRestart.NoLostRestart` | scripts/pgbouncer-entrypoint.sh:80-92 | for every interleaving of handler file steps with watcher steps, once the signal is gone, the watcher polls and no handler is in flight, the running mode and certificate versions are what `write_tls_config` would now compute |
| `TlsRestart.PreferenceNeverOutrunsCertificates` | backend/internal/handler/ssl/handler.go:126-136 | at every single file step, a preference of "on" implies that both server files exist |
| `TlsRestart.StatusMatchesRunning` | backend/internal/handler/ssl/handler.go:302-308 | at rest the status page and the running mode agree, although `isSSLEnabled` and the script compute it differently when there is no preference file |
| `TlsRestart.RestartCompletes` | scripts/pgbouncer-entrypoint.sh:82-91 | from any reachable state with no handler in flight, fifteen watcher steps reach rest in the wanted configuration |
| `TlsRestart.RunningPairMatches` | backend/internal/handler/ssl/handler.go:376-423 | if the files start out matching, a PgBouncer at rest never runs a certificate with another request's key, although neither side locks; with no handler in flight fifteen watcher steps get there |
| `TlsRestart.HandlerOpsMatch` | backend/internal/handler/ssl/handler.go:376-423 | every finished request leaves server certificate and key from one version, or not both |
| `TlsRestart.MixedPairInBetween` | scripts/pgbouncer-entrypoint.sh:54-57 | before it is at rest it can: an upload that starts between the two reads |
| `TlsRestart.HandlerOpsOk` | backend/internal/handler/ssl/handler.go:247-300 | the write order of each of the five handlers: every intermediate directory is one the protocol can live with, and only removals of files nobody will load may go without a signal |
| `TlsRestart.InvNext` | scripts/pgbouncer-entrypoint.sh:26-57 | the inductive invariant, kept by every step of either process |
| `TlsRestart.SslHandler.WritePreference` | backend/internal/handler/ssl/handler.go:59-77 | `enableSSL` and `disableSSL`: preference first, signal second, certificates untouched |
| `TlsRestart.SslHandler.GenerateCerts` | backend/internal/handler/ssl/handler.go:376-408 | the file steps taken, in order, and the whole directory afterwards |
| `TlsRestart.SslHandler.UploadCerts` | backend/internal/handler/ssl/handler.go:410-423 | the same for an upload with or without a CA certificate |
| `TlsRestart.SslHandler.EnableCerts` | backend/internal/handler/ssl/handler.go:247-270 | refused exactly without both files; otherwise TLS is on afterwards, and nothing is written if it already was |
| `TlsRestart.SslHandler.DisableCerts` | backend/internal/handler/ssl/handler.go:272-282 | preference off, certificates kept |
| `TlsRestart.SslHandler.DeleteCerts` | backend/internal/handler/ssl/handler.go:284-300 | no certificate file left, and TLS reported off |
| `Hba.HbaRefinesPolicy` | backend/internal/handler/pgbouncer/handler.go:160-216 | first-match reading of the generated text is total and equals the access policy, for every table of well-formed rows and every client address |
| `Hba.OtherUsersDoNotMatter` | backend/internal/handler/pgbouncer/handler.go:183-211 | adding, removing or reordering rows of other users never changes an answer |
| `Hba.HbaFollowsEarliestRow` | backend/internal/handler/pgbouncer/handler.go:160-164 | with the DISTINCT ON query in front: a managed user gets in exactly from the blocks of the earliest row, and is rejected from everywhere else |
| `Hba.PlainEntryIsOneAddressIff` | backend/internal/handler/pgbouncer/handler.go:206-208 | an entry without a slash, IPv4 or IPv6 in any notation of RFC 4291, admits exactly the address it names if and only if that is an IPv4 address |
| `Hba.ParsedIsWellFormed` | backend/internal/handler/pgbouncer/handler.go:201-209 | every address text that parses, IPv6 in full included, denotes an address of its kind's width |
| `HbaBlocks.BlockIsInterval` | backend/internal/handler/pgbouncer/handler.go:173-181 | a block holds exactly the addresses of its own kind in one interval: the network address rounded down to a multiple of the power of two its prefix leaves, and as many from there; for IPv4 and IPv6 and every prefix |
| `HbaBlocks.FileAdmitsRanges` | backend/internal/handler/pgbouncer/handler.go:198-209 | a managed user whose earliest row lists entries w.x.y.z/n or w.x.y.z, spaces around them or not, gets in exactly from the ranges these numbers spell and is rejected from everywhere else |
| `HbaBlocks.AgentTrustedIff` | backend/internal/handler/pgbouncer/handler.go:173-177 | pgbouncer_auth is trusted exactly from 127.0.0.1, ::1, 10.0.0.0-10.255.255.255, 172.16.0.0-172.31.255.255 and 192.168.0.0-192.168.255.255, and nobody else is trusted from anywhere |
| `HbaBlocks.WithoutRowsOnlyPrivate` | backend/internal/handler/pgbouncer/handler.go:179-181 | without rows the application gets in exactly from the three private ranges and any other user from nowhere |
| `HbaBlocks.FullV6Reads` | backend/internal/handler/pgbouncer/handler.go:201-209 | eight groups printed in hexadecimal read as the 128 bits they spell |
| `HbaBlocks.ShortV6Reads` | backend/internal/handler/pgbouncer/handler.go:201-209 | and so do fewer groups around a "::" |
| `Ledgers.BookStepOrderly` | backend/internal/handler/users/handler.go:216-229 | every request, served or not, keeps creation times distinct and in order, and rows that got the column default open |
| `AllowLists.RemovalKeepsAnswersIff` | backend/internal/handler/pgbouncer/handler.go:160-164 | removing a user's earliest database changes no answer to any client if and only if the next earliest row lets the same clients in |
| `AllowLists.RemovalKeepsAnswersByOrigin` | backend/internal/handler/users/handler.go:374-377 | the same by origin: if and only if both rows carry the list last set, or neither does, or that list is open to all of IPv4 |
| `AllowLists.UpdateKeepsAnswersIff` | backend/internal/handler/users/handler.go:231-295 | an update of a user, served or not, changes no answer if and only if the earliest row it leaves lets the same clients in; once served with an allow-list, that row carries it |
| `AllowLists.UpdateKeepsAnswersByOrigin` | backend/internal/handler/users/handler.go:214-261 | without an allow-list in the request it changes nothing while the earliest row stays; otherwise exactly the condition of a removal, by which rows carry the list last set |
| `AllowLists.RunsStayInOrder` | backend/internal/handler/users/handler.go:288-295 | after every run of successful requests that keep the metadata exact each user has one list besides the rows that got the default, which is what the condition by origin needs |
| `AllowLists.AddKeepsAnswers` | backend/internal/handler/users/handler.go:374-377 | AddUserDatabase, which names no addresses, changes no answer at once |
| `AllowLists.RemoveLaterKeepsAnswers` | backend/internal/handler/users/handler.go:408-419 | neither does removing any row but the earliest |
| `AllowLists.AllowListLost` | backend/internal/handler/users/handler.go:408-419 | creating a user with a list, adding a database and removing the first one is a run of served requests that lets in every IPv4 client kept out until its last step |
| `AllowLists.VisitorLetIn` | backend/internal/handler/users/handler.go:408-419 | one such run from a fresh server, with a client that is rejected twice and then let in; its last step meets the hypotheses of the condition by origin |
| `AllowLists.CreatedUserAnswers` | backend/internal/handler/users/handler.go:112-140 | a created user is let in exactly from the blocks of the request's allow-list, and without one from every IPv4 address |
| `AllowLists.NewRowsCarry` | backend/internal/handler/users/handler.go:216-229 | which list each new row gets from each request: the request's, a copy of another row's, or 0.0.0.0/0 |
| `Hba.RuleReads` | backend/internal/handler/pgbouncer/handler.go:201-209 | one printed rule, quoted user or not, reads back as that rule |
| `HbaBlocks.RuleTexts` | backend/internal/handler/pgbouncer/handler.go:173-213 | the lines of the file word by word |
| `PgBouncerFiles.SharedVolume.WriteHba` | backend/internal/handler/pgbouncer/handler.go:171-220 | the line loop writes exactly the text of the rule list |
| `PgBouncerIni.RewriteServesExactly` | backend/internal/handler/pgbouncer/handler.go:242-294 | whatever text was there: afterwards [databases] is exactly the allowed set, each name mapped to itself on db:5432, and every line of every other section is kept in order |
| `PgBouncerIni.LastRewriteWins` | backend/internal/handler/pgbouncer/handler.go:260-290 | a rewrite forgets every earlier one, character for character; with the same names it is idempotent |
| `PgBouncerIni.InsideIff` | backend/internal/handler/pgbouncer/handler.go:264-283 | the flag of the scan says exactly whether the nearest line above that starts with "[", spaces aside, is "[databases]" |
| `PgBouncerIni.RewriteWrites` | backend/internal/handler/pgbouncer/handler.go:244-256 | the header line and for each allowed name its connection line stand in the result as written |
| `Text.TrimSplits` | backend/internal/handler/pgbouncer/handler.go:273 | trimming takes away the spaces at both ends, all of them, and nothing else |
| `Text.CharacterClasses` | backend/internal/handler/core/validation.go:5 | names the pattern takes and does not take |
| `PgBouncerFiles.SharedVolume.RebuildDatabases` | backend/internal/handler/pgbouncer/handler.go:242-294 | the loop with its two flags, splicing a multi-line element into a list of lines, is that rewrite |
| `PgBouncerFiles.SharedVolume.ReplaceSections` | backend/internal/handler/pgbouncer/handler.go:267-294 | its core, for any section body of plain lines |
| `ServedDatabases.RebuildServesAllowed` | backend/internal/handler/pgbouncer/handler.go:233-250 | after any run of requests, failed ones included, a rebuild over any text serves exactly the databases the table allows |
| `ServedDatabases.WithdrawnDatabaseIsNotServed` | backend/internal/handler/databases/handler.go:157-166 | a database dropped, or switched off whatever its kind, is gone at the next rebuild, and no other changes |
| `ServedDatabases.ServedIffLatestAllows` | backend/internal/handler/pgbouncer/handler.go:107-113 | after any run of requests and a rebuild over any text a database is served if and only if the latest served request about it, told from the requests alone, allows it: its creation or a toggle that switched it on |
| `ServedDatabases.ToggleDecides` | backend/internal/handler/pgbouncer/handler.go:107-113 | a served toggle: from the next rebuild on that database is served if and only if allowed, every other as before |
| `Restarts.ServedIsLastMeantIff` | scripts/pgbouncer-entrypoint.sh:51-57 | in every interleaving of handlers, watcher, starting process, rebuilds and RELOADs a listening PgBouncer serves what the last writer of the file meant, every database after a restart and the allowed ones after a rebuild, if and only if no rebuild since it last read the file went unheard, or the last of those meant the same; and at rest it runs the TLS mode the files ask for |
| `Restarts.MissedIff` | backend/internal/handler/pgbouncer/handler.go:471-503 | a rebuild is missed exactly when PgBouncer is not yet listening, or requires TLS while RELOAD comes without, and the file is not read afterwards |
| `Restarts.TlsServesWhatItStartedWith` | backend/internal/handler/pgbouncer/handler.go:483-503 | from any reachable state with TLS on, and until the next stop, PgBouncer serves what was meant when it started, whatever rebuilds come; it follows the last one exactly when both mean the same databases |
| `Restarts.RebuildMissedAtStart` | scripts/pgbouncer-entrypoint.sh:51-57 | one such schedule, for every list of names: at a start with TLS the rebuild falls between text and certificates, and PgBouncer goes on serving every database |
| `Restarts.RestartReopensUntilRebuild` | scripts/pgbouncer-entrypoint.sh:51-53 | after a restart, through any further steps but rebuilds, a listening PgBouncer serves every database; the next rebuild makes it serve exactly that list without TLS and changes nothing with it |
| `Restarts.StartServesEverything` | pgbouncer.ini:1-4 | the base file after `cp` and `sed` serves every name |
| `Restarts.RebuildsDoNotDisturb` | scripts/pgbouncer-entrypoint.sh:80-92 | rebuilds leave the restart protocol as it is |
| `TlsText.SettingsMatchRunning` | scripts/pgbouncer-entrypoint.sh:26-49 | in every interleaving the text a running PgBouncer has read requires TLS, with the two server files, exactly while it runs with a certificate, and sets nothing about TLS otherwise; the base file's own TLS lines never count |
| `PgBouncerSettings.AtMostOneKey` | backend/internal/handler/pgbouncer/handler.go:443-450 | at most one key matches a line, so the order of the map walk cannot choose |
| `PgBouncerSettings.ChoiceIsForced` | backend/internal/handler/pgbouncer/handler.go:443-450 | with such keys every walk over the map is one and the same rewrite |
| `PgBouncerSettings.SettingsIdempotent` | backend/internal/handler/pgbouncer/handler.go:434-462 | a second run finds nothing missing and changes nothing |
| `PgBouncerSettings.SettingsInPlace` | backend/internal/handler/pgbouncer/handler.go:440-460 | lines that set no configured key stay as and where they are, lines that do carry the configured value, and all three pool keys are set |
| `PgBouncerSettings.SettingsReadBack` | backend/internal/handler/pgbouncer/handler.go:406-460 | read as `key = value` afterwards every recognised line gives the configured value, and pool_mode, default_pool_size and max_client_conn are each given |
| `PgBouncerSettings.SpellingsMatch` | backend/internal/handler/pgbouncer/handler.go:444 | a line is recognised indented or not, with one space before "=" or none |
| `PgBouncerSettings.SettingsOrderIndependent` | backend/internal/handler/pgbouncer/handler.go:456-460 | map order shows only in the order of the appended lines |
| `PgBouncerSettings.RewritesCommuteIff` | backend/internal/handler/pgbouncer/handler.go:267-294 | the two rewrites give the same text in either order if and only if nothing is appended, or the file has a [databases] header and ends in another section |
| `PgBouncerFiles.SharedVolume.RebuildSettings` | backend/internal/handler/pgbouncer/handler.go:434-462 | for any configuration each line takes the value of some key that matches it, or stays if none does, and the pool keys never chosen are appended; with keys free of spaces and "=" that is the rewrite |
| `PgBouncerFiles.SharedVolume.SetOne` | backend/internal/handler/pgbouncer/handler.go:441-453 | one line, for any configuration: the inner loop over the keys with its break |
| `Accounts.SessionTableEqualsHistory` | backend/internal/auth/auth.go:49-62 | in every run a token is accepted for a user exactly when a login issued it less than 24 hours ago and no logout, password change, reset, deletion or CLI role change came since; the role returned is the last one given |
| `Accounts.DeletedAccountsStayDead` | backend/internal/handler/auth/admin.go:280-281 | no token ever speaks for a deleted account again, even if its name is reused |
| `Accounts.LastAdminSurvives` | backend/internal/handler/auth/admin.go:178-200 | once an administrator exists, one exists after every continuation of the run |
| `Accounts.SetupAtMostOnce` | backend/internal/handler/auth/handler.go:40-98 | no run serves setup twice, even if the flag was never written or is overwritten |
| `Accounts.AuthDatabase.SetupCheck` | backend/internal/handler/auth/handler.go:27-38 | the setup screen is offered exactly when a valid submission would be accepted |
| `Accounts.RunInvariant` | backend/internal/auth/auth.go:40-72 | the tables match the recorded history after every run |
| `Accounts.AuthDatabase.SetupAdmin` | backend/internal/handler/auth/handler.go:40-98 | statement by statement, equal to the step of the run and refused in the same cases |
| `Accounts.AuthDatabase.LogIn` | backend/internal/handler/auth/handler.go:103-139 | served exactly when name and password are not blank, the token is new and some account has this name and this password; then one session of 24 hours, otherwise nothing |
| `Accounts.AuthDatabase.LogOut` | backend/internal/handler/auth/handler.go:151-155 | the same for Logout |
| `Accounts.AuthDatabase.ChangeOwnPassword` | backend/internal/handler/auth/handler.go:183-239 | the same for ChangePassword |
| `Accounts.AuthDatabase.CreateAuthUser` | backend/internal/handler/auth/admin.go:13-104 | the guards in order, the insertion, and the dev_databases rows one by one; a name repeated in the list ends them with an error although the account has been created |
| `Accounts.AuthDatabase.UpdateAuthUser` | backend/internal/handler/auth/admin.go:125-209 | own account, target, role and databases are checked, the count guards the last administrator, and the dev_databases rows are then exactly the list or none |
| `Accounts.AuthDatabase.DeleteAuthUser` | backend/internal/handler/auth/admin.go:226-285 | the same for DeleteAuthUser, whose two branches delete in opposite orders |
| `Accounts.AuthDatabase.ResetAuthUserPassword` | backend/internal/handler/auth/admin.go:332-392 | the same for ResetAuthUserPassword |
| `Accounts.AuthDatabase.CliCreateUser` | scripts/admin.py:94-119 | the same for the CLI action, with its own name and password rules |
| `Accounts.AuthDatabase.CliDeleteUser` | scripts/admin.py:124-161 | the same, for a confirmed deletion |
| `Accounts.AuthDatabase.CliResetPassword` | scripts/admin.py:166-198 | the same for a reset |
| `Accounts.AuthDatabase.CliSetRole` | scripts/admin.py:203-247 | the same for a role change, which also ends the sessions |
| `DevAccess.DevAccessEqualsHistory` | backend/internal/handler/core/helpers.go:32-54 | a token may open a database if and only if a login less than 24 hours ago issued it, nothing since revoked it, and its account is not a dev or was last given that database by a creation or a web update |
| `DevAccess.RowsMatchHistory` | backend/internal/handler/users/access.go:63-70 | in every run the dev_databases rows of every account are the names last given to it, and no row outlives its account |
| `DevAccess.DevNeverOpensSystem` | backend/internal/handler/auth/admin.go:45-61 | no run lets a dev account into one of the four system databases |
| `DevAccess.DemotionDropsRowsIff` | backend/internal/handler/auth/admin.go:202-209 | taking the dev role away removes the rows if and only if the web application does it; after the CLI they wait for the role to come back |
| `DevAccess.UpdateGives` | backend/internal/handler/auth/admin.go:202-209 | a served web update leaves a dev account exactly the listed databases and any other account none |
| `DevAccess.CreationGives` | backend/internal/handler/auth/admin.go:92-104 | a creation gives the listed databases up to the first that is repeated |
| `AccountRules.AccountsFollowRequests` | backend/internal/auth/auth.go:49-62 | in every run the accounts on record, with name, password and role, are the ones the requests tell of |
| `AccountRules.LoginServedIff` | backend/internal/handler/auth/handler.go:115-139 | in every run a login opens a session of an account if and only if name and password are not blank, the token is unused, and the account has this name and was last given exactly this password |
| `AccountRules.ChangePasswordServedIff` | backend/internal/handler/auth/handler.go:183-239 | changing one's password is served if and only if the token speaks for the account, the current password is the one last given, and the new one has 8 to 72 characters |
| `AccountRules.CreateServedIff` | backend/internal/handler/auth/admin.go:19-75 | who may create which account: a standing administrator's session, a new valid name, a password of 8 to 72, and for a dev a nonempty list of existing databases that are no system databases |
| `AccountRules.UpdateServedIff` | backend/internal/handler/auth/admin.go:125-200 | an administrator changes anybody's role but their own; one request after another the last-administrator guard never refuses, since the caller is another one |
| `AccountRules.DeleteServedIff` | backend/internal/handler/auth/admin.go:226-285 | the same for deleting an account |
| `AccountRules.ResetServedIff` | backend/internal/handler/auth/admin.go:332-392 | a reset is served if and only if a standing administrator's session asks for it, for an existing name and a password of 8 to 72 |
| `AccountRules.SetupServedIff` | backend/internal/handler/auth/handler.go:40-98 | setup is served if and only if the flag was last written off or never, no account is there, and name and password are valid |
| `AccountRules.CliCreateServedIff` | scripts/admin.py:94-119 | the CLI's own rules for creating |
| `AccountRules.CliDeleteServedIff` | scripts/admin.py:124-161 | for deleting, where the last administrator is refused |
| `AccountRules.CliResetServedIff` | scripts/admin.py:166-198 | for resetting a password |
| `AccountRules.CliRoleServedIff` | scripts/admin.py:203-247 | and for changing a role, where no change and the last administrator are refused |
| `AccountRules.SessionsAfter` | backend/internal/auth/auth.go:64-72 | which sessions end with which request: all of an account with a new password, a deletion or a role change by the CLI, one with a logout, none with a role change by the web application |
| `AccountRules.LogInAndOut` | backend/internal/handler/auth/handler.go:151-155 | after a logout the token speaks for nobody, and after a served login for its account |
| `AdminRaces.LosesLastAdminIff` | backend/internal/handler/auth/admin.go:178-200 | with the statements of all requests interleaved: one statement removes the last administrator if and only if it writes, unguarded, over the only one |
| `AdminRaces.AdminSurvivesInterleaving` | backend/internal/handler/auth/admin.go:151-158 | every interleaving keeps an administrator in which nobody is promoted between another request's role read and its write |
| `AdminRaces.PromotionInFlightLosesAdmin` | backend/internal/handler/auth/admin.go:191-199 | six statements of three requests that leave no administrator, so the proviso is needed |
| `Privileges.LevelsNest` | backend/internal/handler/users/access.go:157-216 | read is included in write, write in ddl, ddl in full, and all levels differ |
| `Privileges.RelevelLeavesNothing` | backend/internal/handler/users/access.go:221-247 | revoking and then granting leaves exactly the new level, present and future objects included, whatever was held before |
| `Privileges.EntitlePermits` | backend/internal/handler/users/access.go:147-219 | the privileges of each level, written out: what somebody who held nothing holds on the database, the schema, the tables, the sequences and by default on later ones |
| `ClusterSafety.MetadataCoversGrants` | backend/internal/handler/users/handler.go:242-260 | in every run of harmless requests, failures included, whoever holds anything in a database has a row for it and is a role |
| `ClusterSafety.CoveredStep` | backend/internal/handler/users/handler.go:112-140 | one step of any of the twelve requests keeps that, if harmless |
| `ClusterLimits.CoverKeptIff` | backend/internal/handler/users/handler.go:242-268 | every outcome of a request keeps that if and only if the request is harmless; harm is done by UpdateUser, when it can make its revocations and then adds template0, or any existing database with an invalid level; by CreateDatabase, when it copies from template1 access that no row of the new database records; and by DeleteUser of a role the server keeps, when that role holds anything |
| `ClusterSafety.CreateDatabaseCovered` | backend/internal/handler/databases/handler.go:101-117 | creating a database keeps that if and only if the name is refused or every holding copied from template1 has its row |
| `ClusterSafety.CopyRecordedIff` | backend/internal/handler/databases/handler.go:101-117 | and when no row names the new database, that means template1 is shared with nobody |
| `ClusterSafety.CreateUserCovered` | backend/internal/handler/users/handler.go:112-140 | a creation that fails after CREATE ROLE leaves neither role nor grants |
| `ClusterSafety.RollbackClears` | backend/internal/handler/users/access.go:249-272 | RollbackUser drops the role and every grant, and no row |
| `ClusterSafety.RemoveDatabaseCovered` | backend/internal/handler/users/handler.go:408-419 | removing the last database leaves no grant and no row anywhere, and the role exists afterwards exactly when it is one the server does not drop |
| `ClusterSafety.DeleteUserCovered` | backend/internal/handler/users/handler.go:446-455 | DeleteUser leaves no grant and no row, and the role exists afterwards exactly when it is the application's own or a predefined one |
| `ClusterExactness.GrantsMatchLevels` | backend/internal/handler/users/access.go:147-219 | in every run of successful requests, each meeting its own condition, with tables and sequences coming and going and template1 in the lists, each row has exactly its level's privileges on the database, the schema and every current object, and a user's rows share one level |
| `LevelMeanings.RowsPermit` | backend/internal/handler/users/access.go:147-219 | in those runs a row lets its user do exactly the privileges listed for its level, and a user without one nothing |
| `LevelMeanings.LaterTablePermits` | backend/internal/handler/users/access.go:160-171 | and on a table created later too: Select for read, Select, Insert, Update and Delete for write and ddl, all eight for full |
| `ClusterRules.RecordsFollowRequests` | backend/internal/handler/users/handler.go:97-140 | in those runs each user's role, rows and level are what the requests, taken one by one, tell |
| `ClusterRules.UsersCanDoWhatRequestsSay` | backend/internal/handler/users/access.go:147-219 | from a fresh server, after any such run: a user can do in a database exactly what the latest level is for if the requests leave it among the user's databases, and nothing otherwise |
| `ClusterRules.OthersAreSpared` | backend/internal/handler/users/handler.go:231-295 | a request about a user, served or failed halfway, changes no role, row or privilege of anybody else |
| `ClusterRules.DatabasesFollowRequests` | backend/internal/handler/databases/handler.go:101-166 | in every run a database exists exactly if it did or was created, and was not dropped since |
| `ClusterRules.DatabaseRequestsKeepOthers` | backend/internal/handler/databases/handler.go:101-166 | creating or dropping a database leaves every other one, the rows and the roles alone |
| `ClusterRules.CreateUserServedIff` | backend/internal/handler/users/handler.go:72-140 | every condition of a served creation, written out |
| `ClusterRules.UpdateUserServedIff` | backend/internal/handler/users/handler.go:184-287 | every condition of a served update: role, real level, and each database to visit there and not template0 |
| `ClusterRules.OtherUserRequestsServedIff` | backend/internal/handler/users/handler.go:330-455 | the same for adding and removing a database and deleting a user |
| `ClusterRules.DatabaseRequestsServedIff` | backend/internal/handler/databases/handler.go:83-166 | the same for creating, deleting and toggling a database |
| `ClusterExactness.ExactStep` | backend/internal/handler/users/handler.go:270-287 | one successful step keeps that if and only if it deletes no database a row names, creates none while a row names template1, and deletes no role that the server keeps and a row names |
| `ClusterExactness.CreateDatabaseExactIff` | backend/internal/handler/databases/handler.go:101-117 | creating a database keeps that if and only if no row names template1 |
| `ClusterExactness.DeleteUserExactIff` | backend/internal/handler/users/handler.go:446-455 | so does deleting a user, except one with rows whose role the server keeps |
| `ClusterExactness.DeleteDatabaseExactIff` | backend/internal/handler/databases/handler.go:157-166 | deleting a database keeps that if and only if no row names it |
| `ClusterExactness.RecreatedDatabaseHasOldRow` | backend/internal/handler/databases/handler.go:101-117 | deleted and created again, a database has the old row but not its privileges; the user holds something in it only through a row for template1 |
| `ClusterExactness.InitialIsExact` | backend/internal/handler/users/access.go:130-134 | a freshly initialised server, with its two roles and four databases, satisfies both invariants |
| `ClusterExactness.UpdateUserEffect` | backend/internal/handler/users/handler.go:231-287 | UpdateUser succeeds exactly on a real level when every database it must touch exists and takes connections, and its result does not depend on the order of its three loops |
| `ClusterExactness.UpdateOrderIsInvisible` | backend/internal/handler/users/handler.go:242-260 | two runs of one update that walk their maps in different orders succeed together and then agree |
| `ClusterExactness.UpdateDiffIsExact` | backend/internal/handler/users/handler.go:232-261 | after a successful update the rows are exactly the requested set, duplicates collapsed, each at its level; roles, listings, other users and the databases that need no change stay |
| `ClusterExactness.UpdateUserExact` | backend/internal/handler/users/handler.go:263-287 | a successful update, whatever databases it names, keeps rows and grants in exact agreement |
| `ClusterExactness.CreateUserEffect` | backend/internal/handler/users/handler.go:97-140 | CreateUser succeeds exactly on a valid, unreserved new role and distinct existing databases with no row left over |
| `ClusterLimits.MinIsEveryLevelIff` | backend/internal/handler/users/handler.go:18-23 | the minimum of the access texts is every row's if and only if the rows share one level |
| `ClusterLimits.ListedLevelIsEveryLevel` | backend/internal/handler/users/handler.go:18-23 | after successful runs the MIN(access) that ListUsers shows is the level of every row |
| `ClusterLimits.FailedCreateLeaves` | backend/internal/handler/users/access.go:249-272 | a creation that stops at its k-th database leaves the rows of the k before it, and no role |
| `ClusterLimits.RetrySucceedsIff` | backend/internal/handler/users/handler.go:112-140 | after it a retry succeeds if and only if it would have succeeded before and names none of those k |
| `ClusterLimits.DeleteUserUnblocksRetry` | backend/internal/handler/users/handler.go:446-455 | after DeleteUser a creation succeeds exactly on a valid request for any name but the application's own, with distinct existing databases, whatever was left over |
| `ClusterLimits.InvalidLevelEscapesMetadata` | backend/internal/handler/users/handler.go:263-268 | an update with an invalid level always fails, and no order of its loops leaves unrecorded access if and only if some database to revoke is missing or none to add exists |
| `ClusterLimits.NewDatabaseIsCleanIff` | backend/internal/handler/users/handler.go:252-258 | a database created after a successful update starts with nobody holding anything in it if and only if the list did not name template1 and no other user has a row for it |
| `ClusterAdmin.UserAdmin.GrantAccess` | backend/internal/handler/users/access.go:147-219 | the statements of each level add up to exactly that level's rights, and for a user who held nothing to the privileges written out for it; on a missing role or database none runs, on template0 only the first |
| `ClusterAdmin.UserAdmin.RevokeAccess` | backend/internal/handler/users/access.go:221-247 | the seven REVOKEs strip the user of everything in the database; on template0 only the first two run |
| `ClusterAdmin.UserAdmin.RollbackUser` | backend/internal/handler/users/access.go:249-272 | DROP OWNED database by database, then in the app's own, then DROP ROLE |
| `ClusterAdmin.UserAdmin.CreateUser` | backend/internal/handler/users/handler.go:88-140 | refused without effect on a bad password; otherwise the loop with its three ways to roll back is the run of the model, the rows carry the request's allow-list or the default, and the role gets its password |
| `ClusterAdmin.UserAdmin.UpdateUser` | backend/internal/handler/users/handler.go:184-295 | a bad password is refused before anything is done, a good one set even if the rest fails; the three loops over maps, in whatever order, are a step of the model, new rows copy an allow-list or take the request's, and a successful request with one sets it on every row |
| `ClusterAdmin.UserAdmin.Reconcile` | backend/internal/handler/users/handler.go:214-295 | its body after the password: rows, grants and allow-lists |
| `ClusterAdmin.UserAdmin.AddUserDatabase` | backend/internal/handler/users/handler.go:330-381 | is a step of the model; the level is that of some row, the allow-list the column default |
| `ClusterAdmin.UserAdmin.RemoveUserDatabase` | backend/internal/handler/users/handler.go:399-419 | is a step of the model; errors of the REVOKE are ignored, and so is a DROP ROLE the server refuses |
| `ClusterAdmin.UserAdmin.DeleteUser` | backend/internal/handler/users/handler.go:437-455 | is a step of the model; the drops the server refuses, for its bootstrap and predefined roles, are ignored |
| `ClusterAdmin.UserAdmin.CreateDatabase` | backend/internal/handler/databases/handler.go:83-117 | succeeds exactly on a valid new name, and lists it as allowed unless a row was there |
| `ClusterAdmin.UserAdmin.DeleteDatabase` | backend/internal/handler/databases/handler.go:148-166 | drops the database and its listing, and no managed_users row |
| `ClusterAdmin.UserAdmin.TogglePgBouncerDatabase` | backend/internal/handler/pgbouncer/handler.go:92-121 | sets the flag of a listed database with a valid name to the one asked for, and nothing else |
| `SqlText.IdentReads` | backend/internal/handler/core/sql.go:5-7 | any name, quotes included, reads back from its quoted form (delimited identifiers, section 5.2 of ISO/IEC 9075-2) |
| `SqlText.LiteralReads` | backend/internal/handler/core/sql.go:9-11 | and so does any string literal |
| `SqlText.QuotedTexts` | backend/internal/handler/core/sql.go:5-11 | names and literals stand between quotes, an inner quote twice |
| `SqlText.ListReads` | backend/internal/handler/data/handler.go:207-211 | a printed list reads back as its items, whatever stands behind it |
| `DataStatements.InsertMeans` | backend/internal/handler/data/handler.go:196-211 | parsing the INSERT text and binding its arguments gives back the table and the whole column-value map, for every order of the map walk; placeholders are $1..$n, each once, in order |
| `DataStatements.UpdateMeans` | backend/internal/handler/data/handler.go:265-285 | the same for UPDATE, with the conditions in order |
| `DataStatements.DeleteMeans` | backend/internal/handler/data/handler.go:341-350 | the same for DELETE |
| `DataStatements.AcceptedIff` | backend/internal/handler/core/security.go:42-64 | the conditions accepted: a valid column name with one of the nine operators in upper or lower case; each means the test that operator says |
| `DataHandlers.InsertRow` | backend/internal/handler/data/handler.go:184-211 | the rendering loop: what it emits means the request, and it is refused exactly when empty |
| `DataHandlers.UpdateRow` | backend/internal/handler/data/handler.go:249-285 | the same, with two loops sharing one placeholder counter |
| `DataHandlers.DeleteRow` | backend/internal/handler/data/handler.go:329-350 | the same |
| `DataHandlers.BuildWhereClauses` | backend/internal/handler/core/security.go:37-69 | accepts exactly the nonempty lists of acceptable conditions, renders them in order, and otherwise complains about the first bad one |
| `RowPredicate.BuildRowWhere` | backend/ui/src/components/tabs/DataTab.tsx:58-71 | one condition per named column, IS NULL for null and for a missing cell |
| `RowPredicate.RowWhereSelectsEquals` | backend/ui/src/components/tabs/DataTab.tsx:58-71 | in three-valued logic the conditions hold on exactly the rows equal in every column that has a name, nulls matching nulls; the server accepts them exactly when these names are valid |
| `RowPredicate.GridDeleteRemovesLookalikes` | backend/internal/handler/data/handler.go:341-350 | grid to server: the DELETE sent leaves exactly the rows that do not look like the one shown |
| `ColumnTypes.NormalizeIdempotent` | backend/ui/src/lib/pg-types.ts:45-78 | building and parsing a type string twice is doing it once, for every string |
| `ColumnTypes.BuiltTextIs` | backend/ui/src/lib/pg-types.ts:45-56 | the text of every type: VARCHAR and CHAR with a length, NUMERIC with precision and positive scale, and any other base as it is |
| `ColumnTypes.NormalizeFixedIff` | backend/ui/src/lib/pg-types.ts:59-78 | build after parse leaves a string alone if and only if it is none of the three types with parameters, or written as the dialog writes it |
| `ColumnTypes.LengthReads` | backend/ui/src/lib/pg-types.ts:46-48 | a length on VARCHAR or CHAR survives build and parse |
| `ColumnTypes.PrecisionReads` | backend/ui/src/lib/pg-types.ts:49-53 | so do a precision and a positive scale on NUMERIC; a zero scale is lost |
| `ColumnEdit.AlterReads` | backend/ui/src/components/dialogs/EditColumnDialog.tsx:68-105 | every emitted ALTER reads back, whatever the names contain |
| `ColumnEdit.AlterTexts` | backend/ui/src/components/dialogs/EditColumnDialog.tsx:69-104 | the six statements word by word |
| `ColumnEdit.EditMutation` | backend/ui/src/components/dialogs/EditColumnDialog.tsx:63-105 | the pushes of the mutation are the plan |
| `ColumnEdit.PlanReachesTarget` | backend/ui/src/components/dialogs/EditColumnDialog.tsx:68-110 | for an unchanged or unused new name the plan runs to the end, gives the column the requested name, the type by base and parameters, nullability and default, and leaves the others alone |
| `ColumnEdit.PlanEmptyIff` | backend/ui/src/components/dialogs/EditColumnDialog.tsx:79-105 | nothing is sent exactly when the column already is what the form describes |
| `ColumnEdit.PlanIsMinimal` | backend/ui/src/components/dialogs/EditColumnDialog.tsx:63-105 | one statement for each of name, type, nullability and default that differs |
| `ColumnEdit.UneditedSaveIsSilentIff` | backend/ui/src/components/dialogs/EditColumnDialog.tsx:43-57 | saving an untouched form sends nothing if and only if the type takes no parameters or is written as the dialog writes it |
| `CsvExport.CsvRoundTrip` | backend/ui/src/components/SqlConsole.tsx:152-165 | the data lines decode, by section 2 of RFC 4180 with LF as separator, to the grid cell by cell, null as the text NULL |
| `CsvExport.ExportIsInjective` | backend/ui/src/components/SqlConsole.tsx:152-165 | two grids export alike exactly when they show alike: only null and the text NULL collide |

## Left out

- TlsRestart.NoLostRestart: takes each file write as succeeding and one handler at a time; handlers racing each other, processes killed halfway and the PID and socket handling of stop_pgbouncer are not modelled.
- TlsRestart.SslHandler.GenerateCerts: file contents are what a reader takes from them, the first PEM block; the old tail that stays behind a shorter key, because that file is opened without truncation, is not part of the state.
- TlsRestart.RestartCompletes: counts watcher steps, not seconds.
- Restarts.ServedIsLastMeantIff: the write and the RELOAD of a rebuild are one step, as are `cp` with the four `sed` calls; the base file is any text that opens with the [databases] fallback and has no other line of the kind, as pgbouncer.ini does; the settings rewrite is not among the writers, though its RELOAD is among the steps; that a PgBouncer with client_tls_sslmode = require turns away connections without TLS is taken from its manual.
- Hba.HbaRefinesPolicy: assumes entries and user names without spaces, quotes or line feeds, and one row per user.
- PgBouncerSettings.SettingsIdempotent: assumes keys without a space or '=' and single-line values; system_config could hold others, though UpdatePgBouncerConfig writes none.
- PgBouncerSettings.SettingsReadBack: speaks of the lines the scan recognises; a line with more than one space before "=" is none of them, and which of two lines for one key PgBouncer takes is not modelled.
- PgBouncerSettings.RewritesCommuteIff: assumes, as a caller can check, that no old [databases] line and no allowed name is a configured key.
- Ledgers.BookStepOrderly: NOW() is a counter, so no two rows are inserted at the same instant.
- AllowLists.RunsStayInOrder: speaks of successful requests; a failed UpdateUser or CreateUser can leave rows with a list of their own.
- Accounts.SessionTableEqualsHistory: requests are serialized here, passwords compare as equal strings and tokens are fresh values; names arrive already trimmed, and the periodic removal of expired sessions is not a step.
- Accounts.AuthDatabase.CreateAuthUser: what pg_database lists is a parameter, as in UpdateAuthUser; lengths of names and passwords, here and in the other handlers, count characters, while Go's `len` counts bytes, which differ outside ASCII.
- Accounts.AuthDatabase.CliDeleteUser: an aborted or unconfirmed dialogue is no request at all.
- AdminRaces.AdminSurvivesInterleaving: each statement is atomic; the snapshot a COUNT subquery sees under READ COMMITTED while another transaction commits is not modelled.
- ClusterSafety.MetadataCoversGrants: statements fail only because something is missing, duplicated, reserved or takes no connections; managed roles own no objects, and PUBLIC grants and superuser rights are not represented.
- ClusterExactness.GrantsMatchLevels: tables and sequences are those the application's own role creates in schema public.
- ClusterAdmin.UserAdmin.CreateUser: connection strings are not built; generated passwords are a parameter, as in UpdateUser.
- DataStatements.UpdateMeans: operators are ASCII; Go's upper-casing of other letters into ASCII ones (the dotless i) is not modelled.
- ColumnEdit.PlanReachesTarget: the server stores type and default text as written; its own rewriting of either, and casts that fail on existing rows, are not modelled.
- ColumnTypes.NormalizeIdempotent: numbers are unbounded, so integers from 2^53 on, where parseInt rounds, are not covered; text in a number input that parseInt takes only in part is not modelled.
- CsvExport.CsvRoundTrip: says nothing about the header line, which is joined without quoting.
- PgBouncerFiles.SharedVolume.RebuildSettings: the query of system_config and the defaults it overrides are the parameter `config`.
- PgBouncerFiles.SharedVolume.WriteHba: the query and the JSON decoding of allowed_ips are the parameter `rows`; a failed read or write of the file ends the rebuild in the code and has no counterpart here.
- HTTP and JSON decoding, cookies, the audit log and response texts: plumbing around the steps.
- bcrypt, pgx, x509 and the random generators: foreign libraries.
- Backup and restore, the SQL console's query path, table browsing, and the React components around the four modelled functions: no further state or printing that would add a harder claim.
