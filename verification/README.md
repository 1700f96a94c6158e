# Verification of the xoxproxy control plane

xoxproxy manages the users of a 3proxy engine. Four parts of it carry state over long runs, and this
project models those parts and proves what they promise. `dafny verify dfyconfig.toml` checks everything.

**Configuration and deployment.** User rows become an engine state, the state becomes a configuration
text, and the text is installed, signalled, verified and, if need be, rolled back. `UsersState`, `Engine`
and `Config` follow the compiler; `ConfigReader` is a reader of the emitted directives at character and
token level, so that compilation can be stated as preservation of meaning, the settings included. `Deploy` follows the
file-system protocol, recording every disk state a crash could leave and every signal; `Pipeline` is the
service object with its reason fields, wake slot and history; `DeployProtocol` is every interleaving of
store commits, triggers, the worker and direct deploys as atomic steps.

**The user store.** `UserTables` has the tables and their transactions, `UserService` the service with its
read-then-conditional-write operations, alone and interleaved. `StoreLaws` says what each mutation changes, row
by row and in the policy of the live rows. `ControlPlane` runs it together with the deploy
pipeline, from the committed row through its notification to the live configuration.

**Traffic accounting.** `LogParse` and `Tailer` read the engine log, and `EngineLog` follows a request
from the log format of a rendered configuration to the record counted; `CivilDays` sets the days records are filed
under against the calendar; `Aggregator`, `Ring` and `Counters` fold
records; `AnalyticsService` queues, flushes and retries; `Ledger` has the tables. `FlushWindows`,
`LedgerAgreement`, `AnalyticsRun`, `AnalyticsFlush`, `AnalyticsBatches`, `AnalyticsCursor` and `AnalyticsLedger`
state what holds over whole runs, including crashes. `AnalyticsLedger` joins the pipeline to the tables: what a
run adds to them from any start, while accounts appear, disappear and rows are pruned around it.

**Limiters and verifiers.** `RateLimiter`, `Login`, `LoginRuns` and `LoginHistory` cover the token bucket, the
sliding-window address limiter and the account lockout, down to when exactly a request or a login is let through; `Crypt` the engine's password verifier format.

Objects the program updates in place are classes here, with the same fields and the same branches; each
method is proved against a function of the old state, and the theorems are about those functions. Map
iteration order is arbitrary (`Wrappers.Pick`). Outcomes of the file system, the database, process checks
and clocks are parameters.

## Where the code says less, or something else, than its comments

- `internal/store/store.go:238` says that a deployment recorded as "failed" leaves the live configuration
  untouched. When the signal is what failed, the new text stays installed
  (`internal/engine/threeproxy/deploy.go:146-151`), and the next deploy of the same state reports
  "unchanged". `Pipeline.FailedKeepsConfigExactlyWhen` gives the exact condition on the request and the world,
  `Pipeline.FailedSignalThenUnchanged` the failing input.
- `internal/store/store.go:239` says that "rolled_back" means the previous configuration was restored, and lines
  256-259 that the history names the live configuration. A restore that fails is recorded as "rolled_back" too, and
  a history row whose insert fails is lost. `Pipeline.RolledBackRestoresExactlyWhen` and
  `Pipeline.HistoryNamesLiveConfig` give the exact conditions, `Pipeline.FailedRestoreRecordedAsRolledBack` the
  failing input.
- `internal/users/service.go:100-103` says the hook follows a successful mutation. A row that is written but cannot
  be read back is reported as an error and goes without the hook; the contracts of `UserService.Service.Update`,
  `UserService.Service.Transition` and `UserService.Service.RotateCredentials` say exactly when, and
  `UserService.CommittedWithoutNotice` disables a user that way. `ControlPlane.MissingCommits` and
  `ControlPlane.UnheardCommitIsMissing` say what it means for the live configuration.
- `internal/analytics/aggregator.go:39-46` says the destination cap bounds the rows of a user and day. It bounds
  those of one flush window. `FlushWindows.CapIsPerWindow` writes two rows under a cap of one;
  `FlushWindows.RowsPerDay` says exactly which rows a run writes, and `FlushWindows.DayCapExactlyWhen` for exactly
  which records the day stays within the cap whenever the flushes fall.
- `internal/analytics/tailer.go:49-51` calls the published offset safe to persist. It is published before the
  records reach the queue, so a flush in between can persist a cursor past records that only memory holds.
  `AnalyticsCursor.PersistIsSafeExactlyWhen` gives the condition, `AnalyticsCursor.OverlapLosesARecord` the run
  that loses a record; `AnalyticsCursor.AtMostOnce` holds regardless.
- `internal/store/sqlite/analytics.go:252-256` wants a usage reset to leave the record in agreement with the
  engine's own counter, which is not part of this model. That a month row is the sum of its day rows, which every
  other operation keeps, is this project's reading of agreement, and a reset breaks it: earlier day rows of the month
  survive while the month row is deleted. `LedgerAgreement.ResetAgreesExactlyWhen` gives the condition,
  `LedgerAgreement.ResetExample` the input.
- Accepted times of log lines can be negative, in two ways: the fraction accepts a sign, and large seconds leave
  the 64-bit range when multiplied by 1000. `LogParse.NegativeExactlyWhen` and
  `LogParse.AcceptedExactlyWellFormed` give the exact condition on the time field,
  `LogParse.NegativeTimeAccepted` and `LogParse.FarFutureIsFarPast` an input of each kind,
  `LogParse.TimeIsExactWhen` when the time is the one spelled. Milliseconds read back only when padded to three
  digits (`LogParse.UnpaddedMillis`).

## Model

| member | source | states |
|---|---|---|
| Engine.ValidateUsername | internal/engine/engine.go:169-189 | The character scan accepts exactly the usernames of 1 to 64 characters that start with a letter or digit and hold only letters, digits, dot, underscore and dash |
| Engine.ProtocolErrors | internal/engine/engine.go:112-123 | The protocol loop reports no error exactly when all protocols are known and none repeats |
| Engine.LimitErrors | internal/engine/engine.go:109-139 | The checks of one user's bandwidth, protocols and quota report no error exactly when all are within the rules |
| Engine.Validate | internal/engine/engine.go:89-148 | Accumulating errors over the user list with two seen-sets finds none exactly when every user is valid and names and record numbers are pairwise distinct |
| Engine.ValidityIgnoresOrder | internal/engine/engine.go:89-148 | Validity depends on the users, not on their order |
| Config.SortSorts | internal/engine/threeproxy/config.go:172-174 | Sorting by username gives a permutation in order |
| Config.StrictListingUnique | internal/engine/threeproxy/config.go:147-174 | Two strictly ordered listings of the same entries are the same sequence |
| Config.HasProtocol | internal/engine/threeproxy/config.go:268-275 | The loop answers whether the user lists the protocol |
| Config.FirstBadHash | internal/engine/threeproxy/config.go:176-180 | A bad verifier is found exactly when some user's is not of the accepted shape, and the name reported is of such a user |
| Config.WriteAccounts | internal/engine/threeproxy/config.go:212-227 | The account loop appends exactly one users line per entry, in order |
| Config.WriteLimits | internal/engine/threeproxy/config.go:228-243 | The limit loops append the bandwidth and counter lines of exactly the entries that have them |
| Config.WriteService | internal/engine/threeproxy/config.go:245-258 | A service section allows exactly the entries with that protocol, one line each, and no one when there are none |
| Config.Render | internal/engine/threeproxy/config.go:164-261 | The sorting, checking and string building yields the text, or the first error, of the line-level specification |
| Config.EscapeIsLossless | internal/engine/threeproxy/config.go:188-218 | Quoting a value loses nothing: undoing the escapes gives it back |
| ConfigReader.ConfigLoads | internal/engine/threeproxy/config.go:164-261 | Reading the characters of a rendered configuration line by line loads exactly the compiled tables of its entries |
| ConfigReader.ReadingBack | internal/engine/threeproxy/config.go:147-261 | Every rendered text is accepted by the reader, and what it loads is the policy of the state and nothing else, on two authenticated services at the configured ports |
| ConfigReader.SettingsReadBack | internal/engine/threeproxy/config.go:188-210 | What the reader loads from any rendered text as configuration path, pid file, log, counter file, log format, ids, resolvers, caches, connection limit and rotation is the setting of that name, and an optional one is there exactly when the setting is |
| ConfigReader.SameTextSamePolicy | internal/engine/threeproxy/deploy.go:117-119 | Byte comparison is an exact change test: two rendered texts are equal if and only if the effective policies are |
| ConfigReader.OrderDoesNotMatter | internal/engine/threeproxy/config.go:147-174 | Any permutation of the user list renders to the same text, or fails the same way |
| ConfigReader.SortIsUnique | internal/engine/threeproxy/config.go:172-174 | Any correct sort of a valid user list gives the list the model sorts to |
| ConfigReader.EmptyListMattersWhen | internal/engine/threeproxy/config.go:153-158 | Reading an empty access list as unrestricted instead of as denying changes whom a service admits if and only if there are users and none of them uses it |
| UsersState.ToEngineProtocols | internal/users/state.go:69-81 | The loop keeps the known protocols, in order |
| UsersState.BuildEngineState | internal/users/state.go:23-50 | The filter loop builds one user for each row active and unexpired at the given time, with its own verifier, limits and quota |
| UsersState.BuiltPolicy | internal/users/state.go:23-81 | The policy of the built state is that of the live rows, with the quota floored to whole MiB |
| UsersState.CompilationPreservesMeaning | internal/users/state.go:23-81 | From any rows: the compiled text loads to exactly the policy of the live rows, and admits a name on a service if and only if a live row of that name lists the protocol |
| UsersState.RendersExactlyWhen | internal/engine/threeproxy/config.go:164-180 | The state of any rows renders if and only if the settings and the state are valid and every live row's verifier has the accepted shape |
| Deploy.Deployer.constructor | internal/engine/threeproxy/deploy.go:69-86 | A deployer starts with the disk as it is |
| Deploy.Deployer.WriteAtomic | internal/engine/threeproxy/deploy.go:247-285 | The write succeeds exactly when no step fails; at every point in between the file is wholly old or wholly new, and no temporary file is left |
| Deploy.Deployer.EnginePid | internal/engine/threeproxy/deploy.go:201-214 | A pid is returned exactly when the file names a number of at least 2 and the process is alive |
| Deploy.PidReadsBack | internal/engine/threeproxy/deploy.go:201-210 | A decimal line names its pid, and any pid but 0 and 1 can be named |
| Deploy.Deployer.Reload | internal/engine/threeproxy/deploy.go:232-241 | A signal is sent only after the process is identified as the engine |
| Deploy.Deployer.VerifyAfterReload | internal/engine/threeproxy/deploy.go:182-198 | Verification succeeds exactly when every poll finds the process alive and none is cancelled; it sends no signal |
| Deploy.Deployer.Install | internal/engine/threeproxy/deploy.go:121-140 | On success the text is live and the old bytes are the backup; on failure the configuration is as it was; every crash state is safe |
| Deploy.Deployer.Apply | internal/engine/threeproxy/deploy.go:142-178 | Signal, verification and rollback give the specified outcome and file; an exact restore or removal on rollback |
| Deploy.Deployer.RollBack | internal/engine/threeproxy/deploy.go:156-172 | A successful rollback restores the exact previous bytes, or absence; a failed one changes nothing |
| Deploy.Deployer.DeployText | internal/engine/threeproxy/deploy.go:110-178 | The outcome determines the live file; every crash state holds the configuration wholly old or wholly new with the old kept as backup; the signal is sent at most once, after the install, to a pid that passed both checks |
| Deploy.Deployer.Deploy | internal/engine/threeproxy/deploy.go:105-178 | The same from a state, with a state that does not render touching nothing |
| Pipeline.Service.constructor | internal/deploy/pipeline.go:120-133 | A service starts with an empty slot and no history |
| Pipeline.Service.Trigger | internal/deploy/pipeline.go:140-150 | The first reason is kept, and the send fills the slot or does nothing |
| Pipeline.Service.TakeTrigger | internal/deploy/pipeline.go:155-175 | The worker empties the slot and takes the reason, with the fixed fallback when there is none |
| Pipeline.Service.DeployNow | internal/deploy/pipeline.go:180-256 | One call appends one row with the right statuses and checksum, if its insert succeeds, and leaves the configuration of the specified attempt, safely across crashes |
| Pipeline.Service.RecordRow | internal/deploy/pipeline.go:238-256 | A row is appended exactly when its insert succeeds |
| Pipeline.OneAttempt | internal/deploy/pipeline.go:180-256 | For any request: the configuration afterwards is its text exactly when the inputs say that it lands, and the row says so exactly when the restore does not fail |
| Pipeline.StatusExactlyWhen | internal/deploy/pipeline.go:180-256 | Each recorded status, each flag of the result and the checksum, exactly, from the request, the configuration found and the world |
| Pipeline.NewestLandingIsLive | internal/deploy/pipeline.go:180-215 | After any run the live configuration is the text of the newest request that landed, or the one found at the start |
| Pipeline.HistoryNamesLiveConfig | internal/store/store.go:256-259 | After any run the newest row that stuck names the live configuration if and only if the newest request that landed and the newest one shown have the same checksum |
| Pipeline.SavedHistoryIsRight | internal/store/store.go:256-259 | In particular it does when every rollback restores and every row is saved |
| Pipeline.FailedKeepsConfigExactlyWhen | internal/store/store.go:235-240 | A deployment recorded as failed changed the configuration if and only if its text renders, differs, gets installed, and the engine runs but cannot be signalled |
| Pipeline.RolledBackRestoresExactlyWhen | internal/store/store.go:235-240 | A deployment recorded as rolled back did not restore the configuration if and only if the installed text failed verification and the restoring write or removal fails |
| Pipeline.FailedSignalThenUnchanged | internal/engine/threeproxy/deploy.go:146-151 | A concrete failed signal after which the new text is live and the next deploy reports unchanged |
| Pipeline.FailedRestoreRecordedAsRolledBack | internal/engine/threeproxy/deploy.go:157-174 | A concrete deployment recorded as rolled back whose text stays live |
| DeployProtocol.StepKeepsInv | internal/deploy/pipeline.go:140-215 | Every atomic step of store, trigger, worker and direct call keeps the protocol invariant |
| DeployProtocol.NoTriggerLost | internal/deploy/pipeline.go:135-150 | In every interleaving, once the slot is empty and the worker idle, the worker read the source after every trigger that returned |
| DeployProtocol.QuiescentDiskIsFresh | internal/deploy/pipeline.go:135-215 | If then the worker's latest deploy left its text live, the version on disk is no older than the store was at any completed trigger, even if a direct deploy in progress gets undone |
| DeployProtocol.DeploysMoveForward | internal/deploy/pipeline.go:180-215 | Texts are written in store order by whomever, and what is live once writes in progress are undone never goes back in store time |
| DeployProtocol.UndoneIsExact | internal/engine/threeproxy/deploy.go:157-174 | A rollback that restores puts back exactly the version that was live before its write |
| DeployProtocol.SingleFlight | internal/deploy/pipeline.go:97-115 | At most one thread is between taking and releasing the deploy lock |
| DeployProtocol.TriggersCoalesce | internal/deploy/pipeline.go:135-175 | The worker wakes no more often than triggers completed, and deploys for the first reason since it last took one |
| UserTables.JoinSplitProtocols | internal/store/sqlite/user.go:57-64 | Splitting a stored protocol column and joining it again gives the column back |
| UserTables.SplitJoinProtocols | internal/store/sqlite/user.go:57-64 | Joining a valid protocol list and splitting it gives the list back |
| UserTables.Repository.CreateUser | internal/store/sqlite/user.go:68-120 | User and first credential are inserted together or not at all; a taken name is a conflict |
| UserTables.Repository.GetUserByID | internal/store/sqlite/user.go:122-130 | The row of the id, not found, or the database's error |
| UserTables.Repository.UpdateUser | internal/store/sqlite/user.go:192-217 | The mutable columns are written and the version raised exactly when the statement runs and the stored version is the one read; success also needs the row to be read back |
| UserTables.Repository.SetUserStatus | internal/store/sqlite/user.go:230-242 | The status is written and the version raised exactly when the statement runs and the version matches; success also needs the row to be read back |
| UserTables.Repository.SweepExpired | internal/store/sqlite/user.go:244-255 | Exactly the active users past their expiry are disabled, with their versions raised, and counted; a failing statement changes nothing |
| UserTables.Repository.DeleteUser | internal/store/sqlite/user.go:219-228 | The row goes with its credentials; a missing row and a failing statement change nothing and are told apart |
| UserTables.Repository.RotateCredential | internal/store/sqlite/credential.go:59-113 | Version bump, revocation and insertion happen together, exactly when the version matches and no statement fails; success also needs the row to be read back |
| UserTables.Repository.ListEngineUsers | internal/store/sqlite/user.go:257-305 | The listing holds each active credential of a live user exactly once, joined with its row |
| UserTables.CreateKeeps | internal/store/sqlite/user.go:68-120 | Creating a valid user keeps unique names, valid rows and one active credential per user |
| UserTables.RotateKeeps | internal/store/sqlite/credential.go:59-113 | Rotation keeps exactly one active credential per user |
| UserTables.DeleteKeeps | internal/store/sqlite/user.go:219-228 | Deletion keeps the store good |
| UserTables.GoodStoreCompiles | internal/store/sqlite/user.go:257-305 | At any time the rows of a good store build a valid state that holds every live user under its one active credential, and Render accepts it |
| StoreLaws.ListedPolicy | internal/store/sqlite/user.go:257-305 | Every listing of a store, in whatever row order, has the same policy |
| StoreLaws.CreationReadsBack | internal/store/sqlite/user.go:68-120 | A created user reads back as given, active at version 1, under an id and one active credential that are new; no one else is touched |
| StoreLaws.PatchReadsBack | internal/users/service.go:233-283 | Patched fields read back as given and the others as they were, at the next version, credentials and other users untouched |
| StoreLaws.StatusIsWritten | internal/store/sqlite/user.go:230-242 | A status change is of the status and the version alone |
| StoreLaws.RotationReplaces | internal/store/sqlite/credential.go:59-113 | After a rotation the new verifier is the active one, every earlier credential of the user is inactive, and only the version changes besides |
| StoreLaws.SweepIsComplete | internal/store/sqlite/user.go:244-255 | A sweep leaves no active user past the expiry and touches no one else |
| StoreLaws.DeletionIsComplete | internal/store/sqlite/user.go:219-228 | Of a deleted user neither the row nor a credential is left, and no one else is touched |
| StoreLaws.PolicyFollows | internal/users/service.go:171-423 | On any good store each mutation changes the policy of the live rows as it should: a created user enters, a patched one is replaced, a disabled or deleted one leaves, a rotated one has its verifier swapped, a sweep removes those past expiry |
| StoreLaws.CommitChangesPolicy | internal/users/service.go:171-423 | The same for every commit of every interleaving, on whatever listings before and after; a step that does not commit leaves the policy |
| StoreLaws.CommittedRotation | internal/users/service.go:304-340 | A rotation that commits in any run replaces the user's verifier in the policy and nothing else |
| StoreLaws.NewUserIsLive | internal/users/service.go:171-219 | A user that passes the checks of creation is in the policy at once, with the protocols, limits and verifier given |
| StoreLaws.EnableTakesEffect | internal/users/service.go:347-359 | A user that passes the expiry check of Enable is in the policy once the status is written |
| UserService.MutatedErrors | internal/users/service.go:451-501 | The validators report no error exactly when the limits and protocols are within the rules |
| UserService.Service.constructor | internal/users/service.go:123-134 | A service starts over the given repository with no notifications |
| UserService.Service.Create | internal/users/service.go:171-219 | A valid new user is stored and the hook fires once, after the commit; otherwise nothing changes, it does not fire, and the error tells invalid input, a taken name and a failing database apart |
| UserService.Service.Update | internal/users/service.go:233-283 | The patch applied to the row read is written under its version exactly when the statements run; it is reported and notified exactly when the row can be read back too, and each failure has its own error |
| UserService.Service.Delete | internal/users/service.go:285-297 | The user is deleted and the hook fires once, or nothing changes and it does not fire |
| UserService.Service.RotateCredentials | internal/users/service.go:304-340 | The rotation commits under the version read exactly when no statement fails; it is reported and notified exactly when the row can be read back too |
| UserService.Service.Enable | internal/users/service.go:350-359 | A user past its expiry is refused as expired; otherwise the status change commits under the caller's expected version, and is reported and notified exactly when the first read works and the row can be read back too |
| UserService.Service.Disable | internal/users/service.go:343-345 | The user is disabled under the caller's expected version, reported and notified exactly when the row can be read back too |
| UserService.Service.Transition | internal/users/service.go:361-377 | The status change commits under the caller's expected version; it is reported and notified exactly when the row can be read back too |
| UserService.Service.SweepExpired | internal/users/service.go:408-423 | The hook fires exactly when the sweep ran and disabled someone |
| UserService.CommittedWithoutNotice | internal/users/service.go:100-103 | A concrete user that ends up disabled while the caller gets an error and the hook hears nothing of it |
| UserService.NextAdvances | internal/store/sqlite/user.go:192-255 | Every step raises the version of each row it changes by exactly one and never reuses an id |
| UserService.CommitIsAtomic | internal/users/service.go:233-283 | A write that passes the version check is the operation applied to the row as it stands now |
| UserService.NoLostUpdates | internal/users/service.go:233-283 | Every interleaving of reads and conditional writes leaves the tables of the committed operations run one after another in commit order |
| UserService.SameVersionSameRow | internal/store/sqlite/user.go:192-255 | Between two points of a run a row's version does not fall, and is the same only if the row is |
| UserService.ReachableStoreCompiles | internal/users/service.go:171-423 | After any interleaving each user has exactly one active credential, and the text rendered at any time loads to exactly the policy of the live rows |
| ControlPlane.StepKeepsInv | cmd/xoxproxy/server.go:133 | With the service's hook wired to Trigger, every step of both keeps each version of the store accounted for: notified, about to be, not read back, or changing nothing |
| ControlPlane.NotifiedCommitsAreLive | internal/users/service.go:100-119 | At rest, with the worker's latest deploy live, the configuration on disk is no older than any commit whose notification returned, even if a direct deploy in progress gets undone |
| ControlPlane.MissingCommits | internal/users/service.go:100-119 | All a configuration at rest can be missing is commits that changed the tables and are still being notified or could not be read back |
| ControlPlane.UnheardCommitIsMissing | internal/users/service.go:361-377 | From every such state a commit that cannot be read back changes the tables and leaves the system at rest with the old configuration |
| ControlPlane.LiveConfigurationMeansAStore | internal/deploy/pipeline.go:84-94 | At every moment of every run the version on disk is one the store was in, and the text of any listing of its rows loads to exactly the policy of those rows |
| ControlPlane.LiveConfigurationIsCurrent | internal/users/service.go:100-119 | At rest, with every commit read back and every notification returned, the tables behind the live configuration are those of now, and their text loads to exactly the policy of the live rows |
| LogParse.ParseUnixMillis | internal/engine/threeproxy/logparse.go:121-147 | The scaling loop computes the time the specification gives the field, errors included |
| LogParse.ParserUndoesPrinter | internal/engine/threeproxy/logparse.go:45-202 | Parsing the line printed for any well-formed record gives that record back: dotted services, bracketed hosts, unauthenticated names, any time from zero |
| LogParse.AcceptedExactlyWellFormed | internal/engine/threeproxy/logparse.go:45-202 | An accepted record is well formed if and only if its time field is neither below zero through a signed fraction nor wraps to a negative time |
| LogParse.NegativeExactlyWhen | internal/engine/threeproxy/logparse.go:121-147 | An accepted time is negative if and only if the seconds are zero and the fraction negative, or their total exceeds 64 bits and wraps to a negative number |
| LogParse.TimeIsExactWhen | internal/engine/threeproxy/logparse.go:121-147 | An accepted time is the one the field spells if and only if that fits 64 bits |
| LogParse.ReparseIsStable | internal/engine/threeproxy/logparse.go:45-202 | Reprinting an accepted record and parsing again changes nothing |
| LogParse.NegativeTimeAccepted | internal/engine/threeproxy/logparse.go:121-147 | An accepted line with a negative time |
| LogParse.LargeTimeWraps | internal/engine/threeproxy/logparse.go:121-147 | Every printed time up to the largest seconds is accepted, as what its milliseconds wrap to |
| LogParse.FarFutureIsFarPast | internal/engine/threeproxy/logparse.go:121-147 | A concrete field in the far future that is accepted as a time far before 1970 |
| LogParse.UnpaddedMillis | internal/engine/threeproxy/logparse.go:121-147 | A millisecond count printed without padding reads back if and only if it is zero or at least 100 |
| EngineLog.ServedIsRecorded | internal/engine/threeproxy/config.go:45-53 | A request that the engine logs under the format loaded from any rendered configuration is delivered as one record that counts it as served: bytes from the target in, bytes to it out, errors as blocked, under its user, target, time and protocol |
| Tailer.Tailer.constructor | internal/analytics/tailer.go:41-47 | The saved offset is used exactly when the saved path is the log's |
| Tailer.Tailer.Poll | internal/analytics/tailer.go:86-155 | One poll delivers the parseable complete lines of the unread bytes, advances to just after the last complete line and counts the rest as malformed; a shrunken file is read from the start |
| Tailer.LineDelivered | internal/analytics/tailer.go:131-165 | A complete line is delivered as its record exactly when it parses, with either line ending |
| Tailer.LinesAccounted | internal/analytics/tailer.go:86-155 | Records delivered and lines counted malformed add up to the newlines read |
| Tailer.PollExtends | internal/analytics/tailer.go:83-155 | A further poll of any length leaves the reader where one read of the longer prefix would |
| Tailer.ScheduleIndependence | internal/analytics/tailer.go:65-155 | For a growing log, any sequence of polls delivers exactly what one read of the longest prefix delivers, in order and once each, with the offset after its last complete line and every complete line accounted for |
| Tailer.Follow | internal/analytics/tailer.go:65-81 | The polling loop on one reader, at any lengths, collects exactly the records of one read of the longest prefix and ends with its offset and malformed count |
| Ring.Ring.constructor | internal/analytics/aggregator.go:286-288 | A new ring is empty |
| Ring.Ring.Add | internal/analytics/aggregator.go:290-296 | Adding keeps the last records up to the capacity, oldest first |
| Ring.Ring.Recent | internal/analytics/aggregator.go:299-314 | Walking the slots backwards answers the query on the records held |
| Ring.NewestIs | internal/analytics/aggregator.go:298-314 | A query gives the newest wanted records up to the limit, in reverse order of arrival |
| Ring.RetainsTheLast | internal/analytics/aggregator.go:277-296 | After any additions the ring holds exactly the last records up to its capacity |
| Aggregator.Aggregator.constructor | internal/analytics/aggregator.go:94-104 | A new aggregator is empty and has a ring exactly when its size is positive |
| Aggregator.Aggregator.Add | internal/analytics/aggregator.go:109-155 | A record updates live view, ring and counters; it is counted under its own destination while there is room and under the overflow bucket of its port and protocol beyond |
| Aggregator.Aggregator.AddToday | internal/analytics/aggregator.go:158-174 | The live totals roll over when the day changes |
| Aggregator.Aggregator.AddPending | internal/analytics/aggregator.go:125-155 | The attributed part of Add |
| Aggregator.TakeDay | internal/analytics/aggregator.go:208-222 | The inner loop lists each destination of a day exactly once, and the rows add up to the day's counters for every selection |
| Aggregator.TakeUser | internal/analytics/aggregator.go:194-223 | One usage row per day and one row per destination, adding up to what the user held |
| Aggregator.Aggregator.TakePending | internal/analytics/aggregator.go:189-227 | Everything pending is listed once, one entry per user, and nothing stays behind |
| Aggregator.Aggregator.Snapshot | internal/analytics/aggregator.go:249-262 | The live view of the current day |
| Aggregator.Aggregator.RecentConnections | internal/analytics/aggregator.go:266-273 | The ring's answer, nothing without a ring or with a limit that is not positive |
| Aggregator.TakesWhatWasHeld | internal/analytics/aggregator.go:185-227 | The deltas of a batch total, for every user, day and selection, what was pending |
| Aggregator.FoldAdds | internal/analytics/aggregator.go:125-155 | Folding a record adds exactly its share to what is pending, whatever the cap |
| CivilDays.DayIsCalendarDay | internal/analytics/aggregator.go:110 | The day of any time is the date the calendar reaches by counting days, one by one, from 1970-01-01, with its month lengths and leap years |
| CivilDays.FirstDay | internal/analytics/aggregator.go:110 | Every time of the first day of 1970 is filed under 1970-01-01 |
| CivilDays.DaysSortAsStrings | internal/store/sqlite/analytics.go:244-289 | Through the year 9999 day strings compare as the days do, so that pruning and resetting by string comparison goes by time |
| CivilDays.MonthsGroupDays | internal/analytics/aggregator.go:194-223 | Through the year 9999, two days have the same month string exactly when they are in the same month of the same year |
| Aggregator.LiveViewIsTrailing | internal/analytics/aggregator.go:157-174 | The live view is the total of the records since the day last changed |
| FlushWindows.TakenPlusHeld | internal/analytics/aggregator.go:109-227 | For any interleaving of Add and TakePending and any cap, taken plus pending equals the plain fold of the attributed records, per user, day, port and protocol |
| FlushWindows.TotalsAreSums | internal/analytics/aggregator.go:109-155 | That plain fold counts the records, the blocked ones and the bytes each way |
| FlushWindows.ScheduleAndCapDoNotMatter | internal/analytics/aggregator.go:109-227 | Two runs over the same records that end flushed persist the same totals whatever their caps and flush times |
| FlushWindows.BatchesBalance | internal/analytics/aggregator.go:185-227 | In every batch taken in any run the destination rows of a user and day add up to the usage row |
| FlushWindows.WindowKeepsFirst | internal/analytics/aggregator.go:132-155 | At any point a user's day holds exactly the first distinct destinations of the window, up to the cap, and one overflow bucket for each port and protocol of the rest |
| FlushWindows.KeptDestinationsAreExact | internal/analytics/aggregator.go:133-155 | A destination with a row of its own counts every record of the window for that host, port and protocol, and no other |
| FlushWindows.LastSeenIsNewest | internal/analytics/aggregator.go:125-131 | A user was last seen at the newest time among the records of the window |
| FlushWindows.RowsAreDated | internal/analytics/aggregator.go:194-223 | Every row taken carries that time and the month of its day |
| FlushWindows.RowsOfWindow | internal/analytics/aggregator.go:39-47 | A flush writes exactly those rows: in all at most the cap plus the distinct ports and protocols that overflowed |
| FlushWindows.RowsPerDay | internal/analytics/aggregator.go:39-47 | Besides overflow rows, a run writes for a user and day exactly the first destinations of each of its windows, so the day is within the cap if and only if those are |
| FlushWindows.DayCapExactlyWhen | internal/analytics/aggregator.go:39-47 | Every run over the given records stays within the cap for a user and day if and only if they name no more ordinary destinations than the cap, or the cap is not positive |
| FlushWindows.FlushEach | internal/analytics/aggregator.go:189-227 | For any records and cap there is a run that flushes after each of them |
| FlushWindows.CapIsPerWindow | internal/analytics/aggregator.go:39-47 | Two flushes of one day under a cap of one write two destination rows |
| AnalyticsService.Service.constructor | internal/analytics/service.go:81-101 | A pipeline starts empty at the resumed offset |
| AnalyticsService.Service.Enqueue | internal/analytics/service.go:146-154 | Records enter the queue while there is room; exactly the rest is dropped and counted |
| AnalyticsService.Service.Drain | internal/analytics/service.go:159-171 | Draining folds every queued record in order and empties the queue |
| AnalyticsService.Service.Resolve | internal/analytics/service.go:213-251 | Resolution fails exactly when a lookup breaks; otherwise every delta of a known user carries its id and unknown users' deltas are left out |
| AnalyticsService.Service.Flush | internal/analytics/service.go:159-207 | A flush is skipped, deferred with its whole batch kept, or applied with the cursor in one transaction |
| AnalyticsService.ResolvedIsGood | internal/analytics/service.go:213-251 | Any mix of balanced deltas resolves to a batch whose destinations add up to its usage per user id and day |
| AnalyticsService.ResolvedDestsExactly | internal/analytics/service.go:209-251 | Resolving keeps exactly the rows of known users, under their ids, and changes nothing else in them |
| Ledger.AnalyticsRepository.constructor | internal/store/sqlite/analytics.go:22-24 | The tables start empty |
| Ledger.AnalyticsRepository.ApplyDeltas | internal/store/sqlite/analytics.go:50-114 | A batch is applied whole with its cursor, exactly when all its users exist and no statement fails; otherwise nothing changes |
| Ledger.AnalyticsRepository.PruneDestinations | internal/store/sqlite/analytics.go:244-251 | Exactly the destination rows of earlier days go, and are counted; a failing statement removes none |
| Ledger.AnalyticsRepository.ResetUsage | internal/store/sqlite/analytics.go:257-289 | Exactly the user's day and month rows from the given periods on go together, and are counted; a failure at any statement removes none |
| LedgerAgreement.SplitDoesNotMatter | internal/store/sqlite/analytics.go:45-114 | Applying two batches leaves the tables of applying them as one |
| LedgerAgreement.StatRowIsSum | internal/store/sqlite/analytics.go:85-100 | The row of a user, day, host, port and protocol grows by the sums of the deltas for it, column by column, carries the time of the latest, and exists exactly when it did or a delta is for it |
| LedgerAgreement.SeenIsNewest | internal/store/sqlite/analytics.go:73-83 | An account was last seen at the newest time any delta brought |
| LedgerAgreement.DeletionCascades | internal/store/sqlite/user.go:219-228 | Of a deleted account no usage, destination or last-seen row is left, and every other row stays |
| CivilDays.PruneGoesByTime | internal/store/sqlite/analytics.go:244-250 | Pruning before the day of a time keeps exactly the rows of that day and later, unchanged |
| CivilDays.ResetGoesByTime | internal/store/sqlite/analytics.go:257-289 | A reset from the day of a time on removes exactly that user's day rows of that day and later |
| LedgerAgreement.ApplyKeepsDay | internal/store/sqlite/analytics.go:50-100 | A balanced batch keeps destination rows and day ledger in agreement |
| LedgerAgreement.LedgersAgree | internal/store/sqlite/analytics.go:50-114 | Over any run of batches, failures, prunes and deletions every month row is the sum of its day rows, and on days no prune reached the destination rows add up to the day row |
| LedgerAgreement.ResetAgreesExactlyWhen | internal/store/sqlite/analytics.go:252-289 | A reset keeps months and days in agreement if and only if the user had no traffic earlier in the current month |
| LedgerAgreement.ResetLosesMonth | internal/store/sqlite/analytics.go:257-289 | Any traffic on an earlier day of the month is in the day rows but not the month row after a reset |
| LedgerAgreement.ResetExample | internal/store/sqlite/analytics.go:257-289 | A concrete reset after which a month and its days disagree |
| AnalyticsRun.Conservation | internal/analytics/service.go:142-251 | Over every interleaving of polls, enqueues, folds, flushes, failures, retries and crashes, the traffic handed over for a user, day and selection is the traffic applied, in flight, queued, held, batched, waiting, dropped, unknown or lost in a crash |
| AnalyticsFlush.DrainSteps | internal/analytics/service.go:159-171 | The drain loop is one consume step per queued record |
| AnalyticsFlush.FlushIsARun | internal/analytics/service.go:156-207 | One flush is a run of the atomic steps, with the same queue, retry batch, offset and cursor for each outcome |
| AnalyticsFlush.ResolvesTheKnown | internal/analytics/service.go:209-251 | What is applied is resolved from the deltas of exactly the known users |
| AnalyticsBatches.FlushedBatchesAreGood | internal/analytics/service.go:156-207 | In every reachable state the batch a flush resolves satisfies what the ledger agreement needs |
| AnalyticsBatches.UsageConservation | internal/analytics/service.go:142-251 | The same conservation for the usage rows written |
| AnalyticsLedger.PersistIsTaken | internal/store/sqlite/analytics.go:50-114 | A flush resolved against the store as it stands is accepted by the transaction: it knows every user of the batch |
| AnalyticsLedger.DayRowIsApplied | internal/store/sqlite/analytics.go:57-73 | From any tables, every run adds to the day row of an account exactly the traffic of the deltas applied for its name, also when the account appears during the run, and the cursor stored is the run's |
| AnalyticsLedger.LedgerAccountsForTraffic | internal/analytics/service.go:156-207 | What a run added to the day row, with what was confirmed unknown before the account appeared, is on its way, dropped or lost, is the traffic handed over for the name and day |
| AnalyticsLedger.RunsKeepMonths | internal/store/sqlite/analytics.go:50-114 | On tables where every month row is the sum of its day rows, every run of the pipeline keeps it so, whatever accounts are added or deleted around it |
| AnalyticsLedger.RunsKeepDay | internal/store/sqlite/analytics.go:50-114 | A user's destination rows keep adding up to the day's usage row over every run, on each day no prune has reached |
| AnalyticsCursor.PollDeliversBetween | internal/analytics/tailer.go:83-155 | A poll from a line boundary delivers exactly the records of the log between the old and the new offset |
| AnalyticsCursor.AtMostOnce | internal/analytics/service.go:156-207 | For every interleaving and across crashes a settled record ends at or before the persisted cursor, is settled once and is never in memory again |
| AnalyticsCursor.PersistIsSafeExactlyWhen | internal/analytics/service.go:173-200 | Persisting keeps every record before the cursor settled if and only if no record between the old cursor and the offset read is still on its way or was dropped |
| AnalyticsCursor.ExactlyOnce | internal/analytics/service.go:13-16 | When polls and flushes take turns and the queue never overflows, every record before the cursor is settled exactly once, whatever fails, retries or crashes |
| AnalyticsCursor.OverlapLosesARecord | internal/analytics/tailer.go:148-154 | A poll during a flush, then a stop: the cursor has passed a record nothing counted |
| AnalyticsCursor.NeverRevisited | internal/analytics/tailer.go:41-47 | A position behind the cursor that is not in memory is never visited again, so what was lost there stays lost |
| RateLimiter.RateLimiter.constructor | internal/api/middleware.go:91-93 | A limiter starts without buckets |
| RateLimiter.RateLimiter.Allow | internal/api/middleware.go:95-122 | One request trims the full table, refills its bucket up to the burst, and is admitted and charged or refused with the time to the next token |
| RateLimiter.RateLimiter.Sweep | internal/api/middleware.go:98-105 | The loop drops exactly the buckets idle for more than a minute |
| RateLimiter.ServerRule | internal/api/middleware.go:20-26 | The server's rate and burst meet the conditions of the theorems |
| RateLimiter.EvictionIsUnobservable | internal/api/middleware.go:98-105 | Dropping idle buckets never changes an answer, when a minute refills a bucket |
| RateLimiter.AdmissionBound | internal/api/middleware.go:95-122 | The requests admitted from one address between two moments never exceed the burst and what the rate allows for the time between |
| RateLimiter.AdmittedExactlyWhen | internal/api/middleware.go:95-122 | A request is admitted if and only if, counted from every earlier moment, it keeps its address within the burst and the rate |
| RateLimiter.RetryAfterSuffices | internal/api/middleware.go:124-135 | The rounded Retry-After is long enough for a token to accrue |
| RateLimiter.RetryAfterIsTight | internal/api/middleware.go:124-135 | A second less would bring at most the missing token |
| RateLimiter.TableIsBounded | internal/api/middleware.go:95-105 | A table past its limit holds only addresses seen within the last minute |
| RateLimiter.WaitingIsEnough | internal/api/middleware.go:95-135 | A refused client that waits out the reported seconds is admitted, if no other request of its address was |
| Login.IpLimiter.constructor | internal/auth/service.go:438-440 | A limiter starts without entries |
| Login.IpLimiter.Blocked | internal/auth/service.go:442-456 | An address is blocked exactly while its block lasts, with the time left |
| Login.IpLimiter.RecordFailure | internal/auth/service.go:458-484 | The window is filtered, the failure added and the address blocked when the limit is reached |
| Login.IpLimiter.KeepRecent | internal/auth/service.go:472-479 | Filtering the failures in their own slots gives what filtering the history gives |
| Login.IpLimiter.RecordSuccess | internal/auth/service.go:486-490 | A success forgets the address |
| Login.IpLimiter.Prune | internal/auth/service.go:492-507 | Exactly the expired entries of a full table are dropped |
| Login.Service.constructor | internal/auth/service.go:90-106 | Zero options fall back to the defaults |
| Login.Service.Login | internal/auth/service.go:131-224 | One login has the specified outcome and effect on the limiter and the account, database failures included |
| Login.Service.Fail | internal/auth/service.go:134-149 | A failure counts against the address and, if recorded, against the account, locking it at the limit |
| LoginRuns.PruningIsUnobservable | internal/auth/service.go:492-507 | A limiter that never forgets an address gives every login the same outcome |
| LoginRuns.AddressWindowBound | internal/auth/service.go:427-490 | Every half-open window of the shorter of sliding window and block records at most the configured failures of an address without a success in it |
| LoginRuns.LockoutBound | internal/auth/service.go:131-188 | Every half-open window of the lockout's length without a success or reset compares and records at most the configured number of wrong passwords for an account, whatever other failures go unrecorded |
| LoginRuns.LockHolds | internal/auth/service.go:167-182 | Until a lock ends no password is compared for the account, whatever is attempted; attempts only extend it |
| LoginHistory.OutcomeExactly | internal/auth/service.go:131-224 | With a working database the outcome of a login, exactly, from the history alone: failures since the last success, reset or lock that ran out, against the limits of address and account |
| LoginHistory.SuccessExactlyWhen | internal/auth/service.go:131-224 | A right password lets in if and only if the account exists and is not locked and the address is not blocked; a wrong one never does, whatever fails |
| LoginHistory.SuccessClears | internal/auth/service.go:190-218 | After a success neither the account nor the address has a failure left |
| LoginHistory.TableIsBounded | internal/auth/service.go:492-507 | A table of addresses past its limit holds, besides the newest, only blocked ones and those with a failure in the window |
| Crypt.Put | internal/engine/threeproxy/crypt.go:45-50 | The shifting loop writes the base-64 digits, least significant first |
| Crypt.CryptB64 | internal/engine/threeproxy/crypt.go:42-58 | The groups are written in the engine's order |
| Crypt.DecodesBack | internal/engine/threeproxy/crypt.go:38-58 | A decoder recovers all 16 bytes from the 22 characters, which are all of the crypt alphabet |
| Crypt.CRHash | internal/engine/threeproxy/crypt.go:27-36 | The verifier is the prefix, the salt and the encoded digest of the password, a NUL and the salt, in this order |
| Crypt.VerifierIsAccepted | internal/engine/threeproxy/config.go:59 | Over a salt of 1 to 64 letters and digits the verifier is exactly of the shape Render accepts |
| Crypt.VerifierIsLossless | internal/engine/threeproxy/crypt.go:27-36 | Two verifiers are equal if and only if salt and digest are |
| Crypt.MessageIsUnambiguous | internal/engine/threeproxy/crypt.go:32-34 | The terminating NUL keeps password and salt apart: different pairs are hashed as different bytes |
| Crypt.NewSalt | internal/engine/threeproxy/crypt.go:68-77 | Overwriting the random bytes in place gives 16 letters or digits, each determined by its byte |
| Crypt.NewEngineHash | internal/engine/threeproxy/crypt.go:82-88 | Every derived verifier is one Render accepts, made of the given password and a salt of the bytes drawn |

## Left out

- HTTP handlers, JSON, cookies, sessions, the dashboard, the command line, configuration loading and host metrics.
- BLAKE2b, SHA-256 and argon2id are uninterpreted; a password comparison is a given outcome, and no collision claims are made.
- SQL text and the driver: tables are maps and sets, a transaction either applies or does not, and stored times are integers.
- Session rows and tokens of a successful login.
- Password policy (internal/users/service.go:503-514), audit entries, log messages and the wording of errors.
- Concurrent logins: logins run one after another; in the code, looking at a counter and writing it back are separate steps.
- ResetQuota and the read queries of the analytics repository.
- The engine after a signal, pid reuse and real clocks: alive, identity and signal results are inputs, and the verification wait is a finite list of polls.
- The single-flight claim is about one process; a deploy from a separate command-line process is outside it.
- Settings with uid or gid, or with paths that strconv.Quote would escape: the reader theorems assume plain settings (`PlainSettings`), as the server builds them; Render itself is modelled for all settings.
- Log rotation beyond restarting at zero: the run theorems assume a growing log.
- Accounting across deletion and re-creation of a username: the theorems account by name.
- The meaning of the log format's directives is taken from internal/engine/threeproxy/config.go:45-53; other directives the engine knows are not part of this model.
- The 64-bit range of counters and times, except in the log parser; floating point is modelled by reals.
- Aliasing of slices between a retry batch and its resolved deltas: user ids are set on copies, and are overwritten before use in the code.
- Bytes: texts, lines and offsets count characters where the code counts bytes.
- Login.Service.Login: keys accounts by one name each; the case-insensitive lookup that resolves a typed name to its account (internal/store/sqlite/migrations/001_initial.sql:12) is not part of this model.
- The row order of ListEngineUsers: rows come in any order, as Render sorts.
- LoginRuns.LockoutBound: bounds the wrong passwords that were recorded; the code goes on when recording one fails, and such a one is not counted by it either.
- ConfigReader.ReadingBack: assumes that a service with an empty access list admits no one; the comments of Render speak of an implicit trailing deny only, and what the engine does with an empty list is not part of this model. ConfigReader.EmptyListMattersWhen says for which states it matters.
- DeployProtocol.QuiescentDiskIsFresh: like the statements of ControlPlane at rest, says nothing when the worker's latest deploy failed before its write or was rolled back, as the disk then keeps an older text.
- AnalyticsLedger.DayRowIsApplied: assumes that the account's id is never another name's, that the name has that id or is not known yet, and that the account is not deleted during the run.
- AnalyticsLedger.RunsKeepMonths: no usage reset falls into the run; LedgerAgreement.ResetAgreesExactlyWhen says when a reset keeps the agreement.
- UsersState.CompilationPreservesMeaning: says what the reader of the emitted directives loads, not how the engine enforces it.
