# ComplianceForge platform: a verified model

A Dafny model of the parts of the platform that are state machines, parsers or
protocols, with proofs of what they promise. `dafny verify dfyconfig.toml` checks
everything.

- **Seeding** (`SeedFiles`, `SeedPaths`, `SeedRunner`, `SeedMain`). The manifest
  reader, the path containment check and the transaction wrapper are proved against
  exact specifications. The runner is a protocol: any number of processes with any
  manifests contend for one advisory lock, and each step may fail, crash, lose its
  session or send a COMMIT whose outcome is decided later. The invariant says that
  the history table is exactly the committed seed bodies and a prefix of the
  manifest of whoever is at work. The program's loop is shown to be a run of it
  whose outcome its inputs decide.
- **Profile checker** (`ProfileJson`). The recursive token consumer accepts exactly
  the serialisations of acceptable trees, and a stream has at most one tree. The
  reject-null rule concerns the direct members of the root only.
- **Tenant connections** (`TenantPool`, `TenantConnection`). Concurrent requests,
  each call with a context that may carry an executor, nested calls, a pool with a
  release hook and a failure at any call, as interleaved steps; the function with
  its early return, flags and deferred cleanup takes only such steps.
- **Notifications** (`NotificationConfig`, `NotificationStore`, `NotificationRaces`,
  `NotificationInbox`, `NotificationPreferences`). One request is one step, as the
  invariants need; `NotificationRaces` takes checks and writes apart and says exactly
  which interleavings keep them. The endpoints are methods that keep the invariants.
- **Worker** (`WorkerShutdown`, `EventBridge`). The error channel, cancel and drain
  protocol over all interleavings, with every error accounted for, and the bridge as
  a fold into an idempotent outbox whose contract is stated by `Enqueued`.
- **Database posture** (`RoleGraph`, `DatabasePosture`, `Sorting`). Acceptance and text
  are stated on the posture's fields. Membership is reachability in an arbitrary role
  graph; acceptance is shown to be exact least privilege, and the error text to be
  independent of the order of the values.
- **Atomic file replacement** (`AtomicFile`). A disk with unsynced contents and
  directory entries, a crash at every point, an answer to every call.
- **Pagination** (`Pagination`). 64-bit page arithmetic and the partition of the
  rows into pages.

`Text`, `Sequences` and `Wrappers` hold what several modules share.

Four properties one might expect do not hold of the code as it is; each has its
exact condition and a concrete input:

- Resolving an accepted seed path again on its own fails for a result that is blank
  (`SeedPaths.LoneResultIsStableExactly`, `BlankResultIsRefused`).
- The reference invariant needs the check and the write of a rule, and of a
  channel's deletion, to be one step, or nothing harmful in between
  (`NotificationRaces.RacesExactly`, `NotificationConfig.LateRuleWriteExactly`,
  `CheckThenWriteRaces`, `CheckThenDeleteRaces`).
- `writeAtomic` to a name that does not exist and that `os.CreateTemp` may pick for
  its temporary is not crash safe (`AtomicFile.CrashSafeExactly`,
  `TemporaryTargetIsTorn`).
- A page far beyond the end need not be empty, for its offset wraps
  (`Pagination.PastTheEndIsEmptyExactly`, `FarPageRepeatsFirst`,
  `LastPageIsRefused`).

## Model

| member | source | states |
|---|---|---|
| SeedFiles.SignificantEnds | cmd/seed/main.go:273-287 | One pass over the lines, in an array, finds the first and the last line that is neither blank nor a comment, -1 for none |
| SeedFiles.UnwrapTransaction | cmd/seed/main.go:272-294 | The array version, which splits, compares and blanks in place, agrees with `Unwrap` on every text, errors included |
| SeedFiles.UnwrapsExactlyWrapped | cmd/seed/main.go:285-290 | Unwrapping succeeds if and only if some two lines are the outermost significant ones and the wrapper |
| SeedFiles.UnwrapExactly | cmd/seed/main.go:272-294 | Unwrapping a wrapped file succeeds, keeps the number of lines and every line but the two of the wrapper (case and outer space ignored), which become empty |
| SeedFiles.OpeningErrorExactly | cmd/seed/main.go:285-287 | The error about BEGIN is returned if and only if no BEGIN line has nothing significant before it; every other failure is about COMMIT |
| SeedFiles.ReadsExactly | cmd/seed/main.go:285-290 | A line is taken for a wrapper line if and only if, trimmed, it is BEGIN; or COMMIT; in any mixture of upper and lower case |
| SeedFiles.InsignificantExactly | cmd/seed/main.go:275-279 | A line is passed over if and only if it is blank or has `--` behind its indent |
| SeedFiles.InsignificantLineIsKept | cmd/seed/main.go:272-294 | Putting such a line anywhere into a file leaves its success or error as it was, and changes what is unwrapped by exactly that line |
| SeedFiles.WrapThenUnwrap | cmd/seed/main.go:272-294 | Round trip: wrapping any body at all and unwrapping gives that body between two blank lines |
| Text.SplitJoin | cmd/seed/main.go:273-293 | Splitting a join of parts free of the separator gives the parts back |
| Text.JoinSplit | cmd/seed/main.go:273-293 | Joining a split gives the text back |
| SeedFiles.EntryAcceptedExactly | cmd/seed/main.go:203-205 | filepath.Base and filepath.Ext as the code uses them accept exactly the names without a slash that end in .sql |
| SeedFiles.NoEntryExactly | cmd/seed/main.go:198-202 | A manifest line is no entry if and only if it is blank or has `#` behind its indent |
| SeedFiles.NoEntryIsSkipped | cmd/seed/main.go:198-202 | Putting such a line anywhere into a manifest does not change its entries |
| SeedFiles.ReadManifest | cmd/seed/main.go:189-219 | The scanning loop returns the entries in order if and only if every line fits the scanner and the entries are non-empty, distinct, plain SQL names; an error names a fault that is really there |
| SeedFiles.FaultsRefuse | cmd/seed/main.go:198-217 | Each fault the reader may name rules a valid manifest out, so success is an if-and-only-if |
| SeedPaths.AcceptedExactly | cmd/seed/main.go:221-239 | A path is accepted if and only if it is not blank, has no NUL, and the root is a proper prefix of its cleaned absolute form; the result is the components after the root |
| SeedPaths.ResolvesToSurvivors | cmd/seed/main.go:226-233 | What a path resolves to, told from the end: the names of the root and its own but those that the `..` components behind them cancel, one each; a `..` with nothing left to cancel does nothing |
| SeedPaths.NameAndDotsCancel | cmd/seed/main.go:221-239 | A name followed by `..` makes no difference to what a path gives, result or error |
| SeedPaths.ClimbResolves | cmd/seed/main.go:226-233 | n times `..` and then some names resolve to the root without its last n components, or `/` if it has fewer, and the names |
| SeedPaths.ClimbAcceptedExactly | cmd/seed/main.go:221-239 | Such a path is refused as escaping unless it enters the root again through the very components it left and goes on, and the result is then what follows them |
| SeedPaths.ClimbsExactly | cmd/seed/main.go:234-237 | The string test for a climbing path is true exactly when the first component is `..`; `..x` is not mistaken for it |
| SeedPaths.CodeResolves | cmd/seed/main.go:226-233 | filepath.Join, Clean and Rel on texts compute the relation between two component lists |
| SeedPaths.JoinedResultIsStable | cmd/seed/main.go:221-239 | Resolving an accepted result joined to the root returns the same result |
| SeedPaths.LoneResultIsStableExactly | cmd/seed/main.go:221-239 | Resolving an accepted result on its own returns it if and only if it is not blank |
| SeedPaths.BlankResultIsRefused | cmd/seed/main.go:222-224 | The counterexample: a file named by a single space is accepted by the path `./ /.`, and its result is then refused |
| SeedRunner.ValidatedFollows | cmd/seed/main.go:296-314 | On a history the runner wrote, validateHistory's row-by-row test succeeds if and only if the applied seeds are a prefix of the manifest |
| SeedRunner.PositionMismatchUnreachable | cmd/seed/main.go:326-334 | After validation on a duplicate-free manifest checkHistory cannot find a changed position, whatever the table holds |
| SeedRunner.CommitKeepsHistory | cmd/seed/main.go:338-355 | One committed transaction extends an exact history by exactly the next manifest entry, whose name was not there |
| SeedRunner.StepKeepsInv | cmd/seed/main.go:74-120 | Every step of any process, a crash, a lost session and the late outcome of an unacknowledged COMMIT included, keeps the invariant of history, lock and every process |
| SeedRunner.RunsKeepInv | cmd/seed/main.go:74-120 | The invariant holds in every state of every run |
| SeedRunner.HistoryIsExact | cmd/seed/main.go:338-355 | After every interleaving of runs, manifests and crashes the history has exactly positions 1..k, distinct names, and is exactly the committed seed bodies, each once, in order, with their files' checksums |
| SeedRunner.AppliedIsExact | cmd/seed/main.go:338-355 | The inductive form of the history invariant implies the exact one: as many rows as commits, the same names |
| SeedRunner.RunsAppend | cmd/seed/main.go:74-120 | Over any run the history and the applied bodies only grow by appending |
| SeedRunner.FinishedRunIsComplete | cmd/seed/main.go:83-122 | A process that reaches the end leaves a history equal to its whole manifest |
| SeedRunner.MismatchWroteNothing | cmd/seed/main.go:309-334 | In every reachable state a process stopped by a history or checksum mismatch has committed nothing |
| SeedRunner.WroteTracksCommits | cmd/seed/main.go:338-355 | That flag is exactly the process's own commits, and only a commit changes the database |
| SeedRunner.RerunAppliesNothing | README.md:96-98 | No step of a process whose manifest is already the whole history changes the database |
| SeedRunner.RerunPassesChecks | README.md:96-98 | With unchanged files every check of such a rerun passes |
| SeedRunner.LockExcludes | cmd/seed/main.go:74-81 | In every reachable state at most one live session is applying a seed or has a COMMIT pending, even when its process is gone |
| SeedRunner.WaiterProceeds | cmd/seed/main.go:74-81 | In every reachable state a waiting process can take the lock at once, or when the holder's session has ended, before which at most its pending COMMIT has to be resolved, either way |
| SeedMain.ValidateHistory | cmd/seed/main.go:296-314 | The loop over the query's rows decides `HistoryMatches` for the table they come from |
| SeedMain.Session.ApplySeed | cmd/seed/main.go:338-355 | The body and its history row take effect together or not at all; after a failed COMMIT either may be the case; the new state is stated in full |
| SeedMain.Session.SeedOne | cmd/seed/main.go:86-119 | One iteration gets past the seed exactly if its inputs are no obstacle, applying it exactly if it is new, and otherwise stops with the obstacle's reason, leaving only the effect of a lost COMMIT |
| SeedMain.Session.Seed | cmd/seed/main.go:83-122 | The inputs decide the run: on a validated history it ends Done or at the first seed with an obstacle, with that reason, the new seeds before it applied, plus its own if its COMMIT was lost; it is a run of the protocol, finishing means that the history is the manifest, a mismatch changed nothing, and the two counters add up |
| SeedMain.OutcomeIsARun | cmd/seed/main.go:83-122 | Every outcome that inputs decide, lost COMMITs included, is reached by steps of the protocol |
| SeedMain.FinishesExactly | cmd/seed/main.go:83-122 | A run finishes if and only if every old seed has a file of the applied hash, every new one a file that unwraps and a transaction that succeeds, and every query works |
| SeedMain.NewSeedsAreTheFiles | cmd/seed/main.go:86-119 | Every new seed got past is in the history's commits, at its place, with the contents of its file |
| SeedMain.RerunHasNoObstacle | README.md:96-98 | Over a complete history, unchanged files and working queries no seed has an obstacle and nothing is written, whatever the database would answer |
| SeedMain.ApplyIsARun | cmd/seed/main.go:338-355 | Every outcome of applySeed is reached by protocol steps, a commit whose acknowledgement is lost included |
| SeedMain.CheckFinds | cmd/seed/main.go:316-336 | What checkHistory finds: for an old seed equality of checksums alone decides, for a new one nothing is found |
| ProfileJson.CheckProfile | internal/handler/organization_profile_handler.go:160-179 | The check of a body accepts if and only if the tokens are exactly the serialisation of an object whose members are acceptable, with nothing after it |
| ProfileJson.AcceptedExactly | internal/handler/organization_profile_handler.go:160-233 | The recursive consumption accepts exactly the serialisations of acceptable trees |
| ProfileJson.ValueSound | internal/handler/organization_profile_handler.go:204-233 | What one value call consumes is the serialisation of one value within the depth limit, every object in it with distinct keys, not a rejected null |
| ProfileJson.MembersSound | internal/handler/organization_profile_handler.go:181-202 | The same for an object's members, which are new to the keys already seen |
| ProfileJson.ItemsSound | internal/handler/organization_profile_handler.go:221-231 | The same for an array's items |
| ProfileJson.ValueComplete | internal/handler/organization_profile_handler.go:204-233 | Conversely an acceptable value's serialisation is consumed, exactly, and the tree is given back |
| ProfileJson.MembersComplete | internal/handler/organization_profile_handler.go:181-202 | The same for members under any set of keys already seen that they avoid |
| ProfileJson.ItemsComplete | internal/handler/organization_profile_handler.go:221-231 | The same for items |
| ProfileJson.TokensUnambiguous | internal/handler/organization_profile_handler.go:160-233 | No serialisation is the beginning of another: a token stream has at most one tree |
| ProfileJson.Decoder.InspectObject | internal/handler/organization_profile_handler.go:181-202 | The stateful loop over More with its seen map consumes exactly what the functional parser does, and terminates on the tokens left |
| ProfileJson.Decoder.InspectValue | internal/handler/organization_profile_handler.go:204-233 | The same for one value |
| TenantPool.StepKeepsInv | internal/database/querier.go:41-86 | Every step of any request and of the pool keeps: connections are held by one request, idle ones are clean, each acquisition is returned at most once |
| TenantPool.RunsKeepInv | internal/database/querier.go:41-86 | The invariant holds in every state of every interleaving |
| TenantPool.IdleIsClean | internal/database/postgres.go:80-89 | In every reachable state every idle connection has an empty tenant setting |
| TenantPool.CallbackSeesItsTenant | internal/database/querier.go:80-85 | In every reachable state a running callback's connection is its own alone and is set to its own tenant, unless the callback itself overwrote the setting |
| TenantPool.NestedCallsKeepTheTenant | internal/database/querier.go:34-49 | In every reachable state a callback at any depth of nesting finds the outermost call's connection as its context's executor, whatever fallback is given, and that session holds the outermost tenant, whatever tenant the nested call asked for |
| TenantPool.CallReusesExactly | internal/database/querier.go:34-49 | In every reachable state a call reuses a connection if and only if its context carries an executor, which is then its caller's connection, and changes no session; without one it is a new request that has yet to acquire |
| TenantPool.ReturnedExactlyOnce | internal/database/querier.go:55-78 | In every reachable state a request has acquired at most one connection, and has released or hijacked it exactly once when finished and not before |
| TenantPool.FailedSetWaitsForTheHook | internal/database/querier.go:80-82 | After a failed set, whatever else happens in the pool, the session stays as it was left, the connection is not idle and no other request gets it until the release hook runs on it |
| TenantPool.FailedSetIsClearedByTheHook | internal/database/postgres.go:80-89 | In every run a connection whose set failed is idle again only after the hook has cleared it |
| TenantPool.FinishesAlone | internal/database/querier.go:41-86 | From every state of the invariant a request at any depth of nesting can finish by steps of its own, as many as counted, moving no other request and no other connection, and what it held then waits for the hook |
| TenantConnection.WithTenantConnection | internal/database/querier.go:41-86 | With an executor in its context a call runs its callback there and then; without one it acquires, and under every combination of failures takes only protocol steps, with one release or one hijack, after a successful set never a release uncleared, and the callback's own error kept |
| TenantConnection.Deferred | internal/database/querier.go:57-78 | The deferred cleanup: after a successful set the tenant is cleared or the connection closed, never given back uncleared; after a failed set it is given back as it is; an earlier error is kept |
| TenantConnection.Invoke | internal/database/querier.go:41-86 | By induction on nesting: whatever calls a callback nests, the connection stays held and its setting stays what it was unless some code sets it itself |
| TenantConnection.CallAndRelease | internal/database/querier.go:41-86 | After a call and the release hook the connection is idle with an empty tenant or gone, and gone exactly when the hook failed or the cleanup after a successful set did |
| TenantConnection.Connection.ClearTenantContext | internal/database/postgres.go:80-89 | The release hook is a step of the pool protocol: from waiting for it the connection becomes idle with an empty tenant, or is discarded |
| NotificationConfig.UniqueUUIDs | internal/handler/notification_handler.go:1418-1438 | The canonical identifiers, in order, are returned if and only if there are not too many, all parse, and no two are the same identifier |
| NotificationConfig.CountIsTotalExactly | internal/handler/notification_handler.go:1213-1222 | For distinct identifiers the COUNT equals the length if and only if every listed channel is active, undeleted and the organisation's own |
| NotificationConfig.ValidateRuleInput | internal/handler/notification_handler.go:1165-1306 | Validation succeeds exactly if what the body asks for may be used, and gives exactly that: every channel asked for, in order, and the template asked for |
| NotificationConfig.ValidatedExactly | internal/handler/notification_handler.go:1206-1305 | The channel-by-channel validation too: from 1 to 20 distinct channels, all the organisation's own, active and undeleted, a template of its own or the system's, absent if its text is blank |
| NotificationConfig.ChannelKeepsInv | internal/handler/notification_handler.go:909-1066 | The channel endpoints keep references and template names intact |
| NotificationConfig.TemplateKeepsInv | internal/handler/notification_handler.go:722-851 | The template endpoints do, through the guard on active rules and the foreign key's SET NULL |
| NotificationConfig.RuleKeepsInv | internal/handler/notification_handler.go:529-665 | The rule endpoints do, reactivating a rule whose channels or template went away included |
| NotificationConfig.RequestsKeepInv | internal/handler/notification_handler.go:529-1066 | After every sequence of requests of any organisations, active rules name undeleted channels of their own organisation, templates in use exist and are visible to it, and no owner has two templates of one event type and name |
| NotificationConfig.RequestIsIsolated | internal/handler/notification_handler.go:529-1066 | No request changes another organisation's channels, templates or rules, not even through the foreign key, nor a system template |
| NotificationConfig.LateRuleWriteExactly | internal/handler/notification_handler.go:529-633 | If any requests are served between a rule's validation and its write, the write is refused if and only if one of them deleted its template, and keeps the references intact if and only if it is refused, the rule is inactive, or none of them deleted a listed channel |
| NotificationConfig.ChannelDeletedExactly | internal/handler/notification_handler.go:964-1066 | Over any requests a channel keeps its organisation and ends up deleted if and only if one of them was a deletion of it that succeeded |
| NotificationConfig.LateChannelDeleteExactly | internal/handler/notification_handler.go:1036-1066 | The write of a channel's deletion keeps the references intact if and only if it finds no channel or no active rule lists the channel by then |
| NotificationConfig.LateTemplateDeleteIsSafe | sql/migrations/000016_notification_engine.up.sql:123-123 | The deletion of a template keeps them intact without any check |
| NotificationRaces.RacesExactly | internal/handler/notification_handler.go:529-1066 | Every endpoint split into its checks and its one statement: over every interleaving of any requests of any organisations the references stay intact throughout if and only if no active rule is written that lists a channel deleted since the rule's check, and no channel's deletion is written while an active rule written since its check lists it |
| NotificationRaces.InterleavingsExactly | internal/handler/notification_handler.go:529-1066 | The same from any state with requests under way |
| NotificationRaces.EventKeepsExactly | internal/handler/notification_handler.go:529-1066 | One check or write leaves the references intact if and only if it does not race in that sense |
| NotificationRaces.AtomicNeverRaces | internal/handler/notification_handler.go:529-1066 | A write straight after its check never races, from any such state |
| NotificationRaces.HalvesMakeTheRequest | internal/handler/notification_handler.go:529-1066 | A check and its statement, one directly after the other, do what the whole request does, and a check that does not pass changes nothing, as the request then does |
| NotificationConfig.CheckThenWriteRaces | internal/handler/notification_handler.go:1040-1044 | If a channel can be deleted between a rule's check and its write the invariant fails: the concrete interleaving |
| NotificationConfig.CheckThenDeleteRaces | internal/handler/notification_handler.go:1036-1066 | And if a rule can be created between a channel's check and its deletion: the concrete interleaving |
| NotificationStore.Store.UpdateChannel | internal/handler/notification_handler.go:964-1020 | Keeps the invariant; finds exactly the organisation's own undeleted channel, never deletes or revives one, and touches no other |
| NotificationStore.Store.DeleteChannel | internal/handler/notification_handler.go:1025-1066 | Keeps the invariant; deletes exactly an own channel that no active rule of the organisation lists, after which no active rule of anyone lists it and nobody can use it in a rule; every other channel stays |
| NotificationStore.Store.CreateTemplate | internal/handler/notification_handler.go:722-758 | Keeps the invariant; creates exactly if event type and name are free in the organisation, and the new template then has them alone |
| NotificationStore.Store.UpdateTemplate | internal/handler/notification_handler.go:762-813 | Keeps the invariant; renames exactly an own template to a free event type and name, which it then has alone; nobody's view of any template changes, nor any other template |
| NotificationStore.Store.DeleteTemplate | internal/handler/notification_handler.go:816-851 | Keeps the invariant; deletes exactly an own template that no active rule of the organisation uses, after which no rule of anyone refers to it; no active rule changes, and inactive ones lose at most that reference |
| NotificationStore.Store.CreateRule | internal/handler/notification_handler.go:529-578 | Keeps the invariant; created exactly if the body is acceptable and the identifier new, and then the row is what the body asks for, active unless it says otherwise, and every other rule stays |
| NotificationStore.Store.UpdateRule | internal/handler/notification_handler.go:581-633 | Keeps the invariant; updated exactly if the body is acceptable and the rule its own, and then the row is what the body asks for, active as before unless it says otherwise, and every other rule stays |
| NotificationStore.Store.DeleteRule | internal/handler/notification_handler.go:636-665 | Keeps the invariant; deactivates exactly an own rule, which frees its channels and takes none |
| NotificationInbox.ReadTimeIsFinal | internal/handler/notification_handler.go:241-255 | Over any events of any users a read time once set never changes |
| NotificationInbox.FirstReadSetsTheTime | internal/handler/notification_handler.go:227-314 | Over any events of any users an unread notification ends up with the time of the first of them that is its own recipient's read or read-all while it is a delivered in-app one of that organisation, and unread if there is none |
| NotificationInbox.OtherChannelsAreNeverRead | internal/handler/notification_handler.go:209-340 | Over any events a notification of another channel is never listed, counted or read, for anyone |
| NotificationInbox.UnreadBalances | internal/handler/notification_handler.go:209-340 | Over any interleaving of insertions, deliveries, bounces, reads and read-alls of any users: unread now is unread at the start, plus what arrived, less what bounced unread and what the recipient's own reads and read-alls reported clearing |
| NotificationInbox.ReadAllReportsTheBalance | internal/handler/notification_handler.go:300-314 | So after any events a read-all reports what has arrived and is neither bounced nor cleared yet, and another one at once reports nothing |
| NotificationInbox.Inbox.GetUnreadCount | internal/handler/notification_handler.go:319-340 | The count reported is that balance over all events the inbox has been through, and is what is listed less what is read |
| NotificationInbox.ReadAllReportsWhatItClears | internal/handler/notification_handler.go:300-314 | A read-all reports the number of rows whose read time it sets; that is the fall of the unread count, to zero, with the same notifications listed |
| NotificationInbox.ReadTakesOne | internal/handler/notification_handler.go:241-255 | Reading one takes exactly that one off the unread set; repeating it changes nothing and still reports it found |
| NotificationInbox.OthersReadsDoNotCount | internal/handler/notification_handler.go:241-314 | Any reads of others leave a recipient's unread set as it is |
| NotificationInbox.Inbox.MarkAllAsRead | internal/handler/notification_handler.go:292-315 | The update and its row count, over the table in place |
| NotificationInbox.Inbox.MarkAsRead | internal/handler/notification_handler.go:227-258 | Found exactly when the recipient lists the notification, which is then off the unread ones; a repeat changes nothing, and no other row ever does |
| NotificationPreferences.LastSuppliedWins | internal/handler/notification_handler.go:426-457 | After any sequence of PUTs each setting is the last value an accepted one supplied, or its default |
| NotificationPreferences.ReachableExactly | internal/handler/notification_handler.go:399-457 | Some sequence of PUTs stores a row if and only if its digest is one of the four, its quiet times are clock times and its time zone exists |
| NotificationPreferences.AcceptedFieldwise | internal/handler/notification_handler.go:399-425 | A PUT takes effect if and only if each setting it supplies would be accepted alone; otherwise it changes nothing |
| NotificationPreferences.RepeatedPutChangesNothing | internal/handler/notification_handler.go:426-457 | Repeating a PUT changes no setting |
| NotificationPreferences.DefaultsAgree | internal/handler/notification_handler.go:351-377 | What the GET shows before any PUT is what a PUT of nulls would store |
| WorkerShutdown.StepKeepsInv | cmd/worker/main.go:272-353 | Every step of the three components, any number of tasks, the parent and main keeps the invariant on channel, buffer and stop cause |
| WorkerShutdown.ReporterFindsRoom | cmd/worker/main.go:275-308 | While a component has yet to report, the buffer of three has room for it |
| WorkerShutdown.NoErrorIsDropped | cmd/worker/main.go:281-308 | In every interleaving the default branch of the send is never taken |
| WorkerShutdown.ErrorsAreAccounted | cmd/worker/main.go:275-308 | In every interleaving, of an error that a component's function returned exactly one is true: its goroutine has yet to report it, it was put on the channel, or the goroutine saw that the context was done |
| WorkerShutdown.SentWasReturned | cmd/worker/main.go:275-308 | And whatever was put on the channel that component returned |
| WorkerShutdown.ReportedErrorStopsMain | cmd/worker/main.go:328-335 | While main waits and the context is not done, a finished component's error is on the channel and main can stop for the first one there |
| WorkerShutdown.MainStopsExactly | cmd/worker/main.go:328-352 | Waiting main can stop if and only if the parent is done, a worker error was sent or telemetry failed; once stopped it can cancel, which ends every context, and while draining it can always time out |
| WorkerShutdown.DrainedMeansFinished | cmd/worker/main.go:340-348 | drained is closed only after every component and every task has finished, and main returns gracefully only then |
| WorkerShutdown.ReturnedErrorIsTheFirst | cmd/worker/main.go:328-353 | The cause main stops for is real, and a worker error it returns is the first one queued |
| WorkerShutdown.WorkerStepsDecrease | cmd/worker/main.go:272-321 | A worker takes finitely many steps, none of which waits for the channel |
| WorkerShutdown.DrainNeverStuck | cmd/worker/main.go:340-348 | While main drains some worker can step, or drained can be closed and main returns its cause |
| WorkerShutdown.EveryDrainCompletes | cmd/worker/main.go:336-353 | Every run from a draining state that does not time out can settle only with all workers finished and main having returned the cause it selected |
| WorkerShutdown.DrainCompletes | cmd/worker/main.go:336-353 | And from every draining state there is a run without time-out that settles so |
| WorkerShutdown.WorkerEventsAreBounded | cmd/worker/main.go:272-321 | In every run the workers take no more steps than were left at its start, so it must settle |
| EventBridge.BridgeEvents | cmd/worker/main.go:541-587 | The loop's outbox is the fold of the events it took in, and it stops early exactly on an event that makes it stop |
| EventBridge.MakeEnvelope | cmd/worker/main.go:553-571 | Every field of the envelope in terms of the event; if the event has an identifier and a time, every other taking in of it makes the same envelope |
| EventBridge.OfferedExactly | internal/pkg/queue/envelope.go:81-127 | An event is offered if and only if it encodes, its identifier, or else the drawn one, and its organisation, if any, are UUIDs, and identifier, entity and entity type are valid text of bounded length |
| EventBridge.PostgresOutbox.Enqueue | internal/pkg/queue/outbox.go:167-218 | Queued means that the outbox now holds exactly this envelope under its identifier, a conflict that it holds another, an error that the statement failed or an identifier is not in canonical spelling; no row is overwritten and none added for another identifier |
| EventBridge.EnqueueIsIdempotent | internal/pkg/queue/outbox.go:167-218 | Offering an envelope again, with another offered in between, changes nothing and is answered as the first time |
| EventBridge.FirstSnapshotWins | cmd/worker/main.go:541-587 | After any stream the outbox maps each identifier to what it held before or else to the first valid envelope offered for it |
| EventBridge.StopsOnlyOnFailure | cmd/worker/main.go:575-584 | The bridge stops exactly on an offered envelope that the outbox fails on or cannot store, or that clashes under a drawn identifier: never on a conflict of an event with an ID |
| EventBridge.SpellingStopsExactly | sql/migrations/000043_durable_delivery.up.sql:35-44 | A working outbox is stopped by an event with an ID if and only if the event is offered and its ID or its organisation is a UUID in another than the canonical spelling |
| EventBridge.ReplayChangesNothing | cmd/worker/main.go:541-587 | Replaying events with IDs, in any order and number and with any newly drawn identifiers and times, changes nothing and never stops the bridge |
| EventBridge.ConsumedExactly | cmd/worker/main.go:380-396 | Any envelope at all is accepted if and only if it has a tenant, which is its event's organisation, a type that is not blank, and the event's ID is its own or absent; the event processed is the payload under the envelope's ID; a refusal names the first of these three that fails |
| EventBridge.BridgedIsConsumedExactly | cmd/worker/main.go:380-396 | The consumer accepts a bridged envelope if and only if its event has an organisation and a type that is not blank, and then processes that event under the envelope's ID |
| RoleGraph.MembershipIsExact | internal/database/api_posture.go:263-278 | Both membership findings are absent if and only if the role is a member, by any chain of grants, of itself and the one group and of nothing else |
| RoleGraph.GroupReachesNothingElse | internal/database/api_posture.go:263-278 | Then the group itself is a member of nothing else |
| RoleGraph.PrivilegesAreExact | internal/database/api_posture.go:297-323 | Both privilege differences are empty if and only if the role holds every entry of the manifest and its privileges on tables and views are exactly the manifest's entries about them |
| RoleGraph.TablesAreExact | internal/database/api_posture.go:297-323 | For a manifest about tables and views alone that is equality |
| RoleGraph.GatesExclude | internal/database/worker_posture.go:141-146 | A member of the API group, a superuser or the group itself included, has a membership the worker gate forbids |
| DatabasePosture.AppendPostureListViolation | internal/database/api_posture.go:487-494 | A non-empty list adds one violation with its values sorted; the caller's array is not touched |
| DatabasePosture.ValidatePosture | internal/database/api_posture.go:439-485 | The accumulating tests give the verdict and text of `GateOf` for any list of findings; the rows below say which findings a posture has |
| DatabasePosture.ApiAcceptedExactly | internal/database/api_posture.go:439-485 | A posture passes the API gate if and only if its role is not blank, all seven flags are clear and all fourteen lists empty; a blank role is told apart |
| DatabasePosture.WorkerAcceptedExactly | internal/database/worker_posture.go:362-409 | The worker gate likewise, on three lists outside production and on every field in production |
| DatabasePosture.ApiFieldAlone | internal/database/api_posture.go:445-484 | If one field alone shows something, the error is the prefix, the quoted role and that field's own message, with its values if it is a list |
| DatabasePosture.WorkerFieldAlone | internal/database/worker_posture.go:368-408 | The same for the worker gate in production |
| DatabasePosture.ApiFindingIsAField | internal/database/api_posture.go:445-481 | Every test of the API gate is about the field its message speaks of, and stands at that message's place in the order |
| DatabasePosture.WorkerFindingIsAField | internal/database/worker_posture.go:368-405 | The same for the worker gate |
| DatabasePosture.EveryFindingIsNamed | internal/database/api_posture.go:482-493 | However many findings there are, the error names each with its message and values, in order, one separator between neighbours |
| DatabasePosture.SilentExactly | internal/database/api_posture.go:445-484 | Nothing is reported if and only if no finding holds |
| DatabasePosture.OrderDoesNotMatter | internal/database/api_posture.go:487-494 | The report is the same for any permutation of the values in any list |
| DatabasePosture.ApiGateIgnoresOrder | internal/database/api_posture.go:439-494 | So permuted API postures get the same verdict with the same text |
| DatabasePosture.WorkerGateIgnoresOrder | internal/database/worker_posture.go:362-409 | And so do permuted worker postures |
| DatabasePosture.ProductionIsStricter | internal/database/worker_posture.go:362-409 | What the worker gate accepts in production it accepts elsewhere |
| DatabasePosture.ApiAcceptanceConfines | internal/database/api_posture.go:263-323 | A role the API gate accepts is no superuser, reaches itself and complianceforge_api alone, holds the manifest and, on tables and views, no more |
| DatabasePosture.WorkerAcceptanceConfines | internal/database/worker_posture.go:189-240 | A role the production worker gate accepts is no superuser, reaches itself and complianceforge_scheduler alone, holds the manifest and, on tables and views, no more |
| DatabasePosture.NoRolePassesBoth | internal/database/worker_posture.go:141-146 | Whatever the two manifests, no role passes the API gate and the production worker gate |
| Sorting.SortStrings | internal/database/api_posture.go:492-492 | The in-place sort leaves the sorted permutation |
| Sorting.SortSorts | internal/database/api_posture.go:492-492 | Sorting yields a sorted permutation |
| Sorting.SortedIsUnique | internal/database/api_posture.go:492-492 | A multiset of strings has only one sorted listing |
| AtomicFile.CrashSafeExactly | cmd/openapi/main.go:71-97 | For every answer of the operating system and at every crash point the target shows what it could show before or the complete new contents, if and only if it exists or CreateTemp may not pick its name |
| AtomicFile.RunIsSafe | cmd/openapi/main.go:71-97 | The same from any disk with entries and contents still unsynced |
| AtomicFile.RenamingIsSafe | cmd/openapi/main.go:93-95 | A rename of a synced temporary shows old or new, nothing else |
| AtomicFile.TornTarget | cmd/openapi/main.go:76-80 | The failing case: a temporary of the target's own name shows torn contents after a crash |
| AtomicFile.OrdinaryTargetIsSafe | cmd/openapi/main.go:76-80 | For the code's pattern every target whose name does not begin with a dot is safe, whatever the answers |
| AtomicFile.DefaultTargetIsSafe | cmd/openapi/main.go:18-18 | The document written by default is such a target |
| AtomicFile.TemporaryTargetIsTorn | cmd/openapi/main.go:76-80 | A new file called .openapi-1.tmp is not: one run of the code in an empty directory that succeeds, with a torn target at a crash point |
| AtomicFile.NilMeansInPlace | cmd/openapi/main.go:71-97 | nil is returned if and only if every call succeeded, and the target is then the new file, complete, synced and of mode 0644, with no other entry changed |
| AtomicFile.ErrorsExactly | cmd/openapi/main.go:71-109 | The joined error is that of the first call to fail, then that of closing, if the temporary was still open and closing failed, then that of removing, if there was a temporary and removing it failed |
| AtomicFile.ErrorLeavesNoTrace | cmd/openapi/main.go:99-109 | On an error the directory is as it was but for the temporary, which is left exactly when the joined error says its removal failed |
| AtomicFile.ErrorLeavesTarget | cmd/openapi/main.go:71-97 | On an error the target is untouched, now and after a crash |
| AtomicFile.FileSystem.WriteAtomic | cmd/openapi/main.go:71-97 | The calls in the code's order, with the cleanup of each failure, go through exactly the disks and return exactly the errors of `Run` |
| AtomicFile.FileSystem.CloseAndRemoveFile | cmd/openapi/main.go:99-101 | The temporary's entry alone is gone, exactly unless the joined errors say that its removal failed; errors already there are kept and no contents change |
| AtomicFile.FileSystem.RemoveTemporaryFile | cmd/openapi/main.go:103-109 | The same without closing; absence counts as removal |
| Pagination.ParsePagination | internal/handler/organization_handler.go:125-139 | Whatever the two texts, the page is at least 1 and the size from 1 to 100 |
| Pagination.ParsedExactly | internal/handler/organization_handler.go:125-139 | For any two texts: the page is the integer written, cut to the range of an int, or 1 if it is below 1 or none is written; the size is the integer written if that is from 1 to 100, and else 20; a text that overflows 64 bits before it goes wrong still asks for the greatest page |
| Pagination.AtoiExactly | internal/handler/organization_handler.go:126-131 | What the ignored error leaves as the number, for every text: sign, empty and malformed texts, and both ways of overflowing |
| Pagination.RequestsRoundTrip | internal/handler/organization_handler.go:125-139 | Every page of 64 bits and every size up to 100 is asked for by its decimal text |
| Pagination.TotalPagesIsLeast | internal/handler/classified_response.go:98-101 | The page count is the least number of pages that holds the total, without overflow when total + 99 fits |
| Pagination.StartsInside | internal/handler/notification_handler.go:160-160 | Within the page count no offset overflows, each page starts inside the rows, and only the last reaches their end |
| Pagination.PagesAreTheRows | internal/handler/notification_handler.go:159-185 | Pages 1 to the page count put together are the rows, each once and in order |
| Pagination.PageShows | internal/handler/notification_handler.go:159-185 | All pages but the last are full and none is empty |
| Pagination.RowIsOnOnePage | internal/handler/notification_handler.go:159-185 | Row i is on page k if and only if k is i / size + 1 |
| Pagination.PastTheEndIsEmpty | internal/handler/notification_handler.go:159-185 | The page after the last is empty, and so is every later one whose offset fits in 64 bits |
| Pagination.PageExactly | internal/handler/notification_handler.go:159-185 | What any page shows depends on (page - 1) * size modulo 2^64 alone: nothing if and only if that lies between the number of rows and the greatest 64-bit int, an error if and only if it is greater, and otherwise the rows from there on |
| Pagination.PastTheEndIsEmptyExactly | internal/handler/notification_handler.go:159-185 | A page past the last is empty if and only if its start modulo 2^64 is in that range |
| Pagination.OffsetExactly | internal/handler/notification_handler.go:160-160 | The offset is the intended one if and only if that fits in 64 bits |
| Pagination.FarPageRepeatsFirst | internal/handler/notification_handler.go:160-160 | The failing case: a page far past the end repeats the first page |
| Pagination.LastPageIsRefused | internal/handler/notification_handler.go:160-160 | And for the last page that can be asked for the offset is negative, which PostgreSQL refuses |

## Left out

- Text: a Go string is a sequence of characters here, not of bytes; invalid UTF-8 is not modelled.
- Seeding: options, the connection string and the reading of files (symbolic links, size limits) are not modelled; the files a run can read are a parameter, as are SHA-256 (`hash`) and the server's answers. In `SeedRunner` the hash and the test of the wrapper are one parameter, `Code`; `SeedMain` takes it to be the code's own test.
- SeedPaths.AcceptedExactly: paths are those of Unix, and the root is the absolute, cleaned directory that the caller passes.
- Seeding: a seed body is one opaque action; transaction control inside it is not modelled, nor a writer of the history table other than the runner.
- SeedRunner.MismatchWroteNothing: speaks of the mismatching run's own commits, because other runs may have committed before it took the lock.
- Profile: the lexing of JSON, the body's length limit and the second decoding into the struct are not modelled; the model starts from the tokens, and an unreadable one is a token of its own.
- ProfileJson.Decoder.InspectItems: the array case of the value method is a method of its own, because its loop needs its own invariant.
- Tenant connections: the nil pool and the retry loop that opens the pool are not modelled.
- TenantPool.NestedCallsKeepTheTenant: a callback passes on its own context, one derived from it, or one without executor; a context kept from another request's callback, and executors attached by other code, are not modelled.
- TenantConnection.Invoke: a nested call passes its caller's context on; one that passes a context without executor is a request of its own in `TenantPool`.
- TenantPool.CallbackSeesItsTenant: excepts a callback that sets the tenant itself, which the code cannot prevent.
- Notifications: UUID parsing, clock and zone formats are parameters; path identifiers, event types, recipients, severities and the configuration of a channel are one flag, `restValid`, or left out.
- NotificationConfig.UniqueUUIDs: `parse` stands for the parser of the Go library; spellings it accepts and PostgreSQL does not are not told apart.
- NotificationConfig.RequestsKeepInv: covers `channel_ids` only; `DeleteChannel` does not guard `escalation_channel_ids`, and a channel in use may be made inactive by `UpdateChannel`.
- NotificationConfig.LateRuleWriteExactly: takes for granted that the database draws a new identifier for every template.
- NotificationRaces.RacesExactly: each check reads one state of the tables; a check whose several queries see different states is not modelled.
- Notifications: the normalisation of quiet hours by the database, timestamps and the acknowledgement endpoint are not modelled.
- Worker: what the components and tasks do inside, leases and telemetry; a task is a step that ends, and the drain's completion assumes that components return once cancelled.
- EventBridge.PostgresOutbox.Enqueue: the trace context, the size limit and all SQL failures but the check on identifiers are one parameter, `fails`.
- EventBridge.OfferedExactly: takes for granted that the two constant metadata keys are valid text.
- EventBridge.BridgeEvents: the channel is the sequence of events received before it is closed or the context is cancelled; envelope normalisation is not modelled.
- Posture: the ledger, capability, sequence, ownership and isolation lists are inputs without a meaning of their own; the privilege manifests are parameters.
- DatabasePosture.ValidatePosture: the code's straight line of tests is a loop over the table of findings, `ApiFindings` or `WorkerFindings`, in the same order.
- Sorting.SortStrings: `sort.Strings` is an insertion sort here; any sort has the same result, by `Sorting.SortedIsUnique`.
- AtomicFile.FileSystem.WriteAtomic: directories, permissions of other files and other processes working in the directory are not modelled; a failed write may have stored any beginning of the data.
- Pagination.PagesAreTheRows: the rows are one fixed sequence; rows inserted between requests, and ties in the query's ORDER BY that the server may break differently each time, are not modelled.
- Pagination.ParsePagination: `strconv.Atoi` is modelled as its documentation and 64-bit ints have it, the early stop on overflow included; it is not part of this repository.
- All other handlers, configuration, HTTP, e-mail, encryption, the frontend and the migration entry points are not part of this model.
