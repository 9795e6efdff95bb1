# Verified model of the Komari Agent's durable state machines

This project models, in Dafny, the parts of the Komari Agent that must stay right across failures
and crashes, and proves what they promise. Everything is checked by

    dafny verify dfyconfig.toml

## What is modelled

**The host tools** (`HostDisk`, `StateTree`, `UpgradeState`, `HostTransaction`, `HostJournals`,
`HostCommands`, `SoftwareUpgrade`, `UpgradeCommand`, `HostMachine`). `apply` changes seven protected
files and the daemon's state tree under a write-ahead journal; `resume` and `restore` finish or undo
it; `upgrade-installed-rescue` replaces four files as a unit. The outside world is one mutable
`Disk` whose operations each have a fate: fine, refused, late (it took effect but was reported as
failed), or a crash before or after taking effect. After a crash nothing changes any more, so what a
method promises without looking at its result holds at every one of its crash points. The journal,
the `Disk` and the loops over backups and recorded owners are updated in place as in the source.
What the daemon does while it runs is an input (`Daemon`), so the tree a command leaves is what that
daemon makes of the tree it was handed. `HostMachine` puts all commands together in any order.

**Uploads** (`UploadSpec`, `UploadSession`, `UploadLifecycle`). The chunk arithmetic in wrapping
64-bit integers, the part file and its set of received chunks, and the registry of live streams with
its idle channels and tombstones.

**The privileged store and the outbox** (`PrivilegedState`, `PrivilegedStore`, `ReceiptDelivery`).
Durable changes are a function of the state; store handles are objects that share one file and commit
by comparing what they last saw. `FlushReceipts` is the delivery pass over both queues.

**The rescue gate** (`HeartbeatGate`): the event loop that opens and closes the helper's
authorization. **Smaller machines**: the service word splitter and quoter (`SystemdWords`), the nonce
record (`ReplayGuard`), the credential refresh (`CredentialStore`), the online settings
(`RuntimeConfig`), traffic totals (`TrafficTotals`) and the monthly reset date (`ResetDate`).

`Options`, `DurableWrites` and `Text` hold shared values. Signature checks, PAM, systemd, the panel,
clocks and random IDs are arbitrary values or outcomes.

## Where the code does not keep a promise

Each of these has a concrete counterexample and the exact condition under which the promise holds.

- An upgrade whose `completed` phase is durable but whose write was reported as failed, or whose
  closing message cannot be printed, is rolled back; a crash during that rollback leaves `completed`
  over a mixture (`CompletedMixture`, `PhaseIsTrustedExactly`).
- Backups and recorded owners keep nine permission bits only. A restoration brings back the original
  protected files if and only if none of them had a set-user-ID, set-group-ID or sticky bit
  (`HostJournal.RestoreTransaction`, `RecoveredExactly`, `ModeSurvivesExactly`).
- A first upgrade attempt accepts any installed files, a retry only ELF executables. An attempt that dies
  over a base that is not executable stays pending and every retry is refused (`Stranded`, `Retry`: a
  retry can succeed if and only if the three executables were ELF).
- An upload whose commit fails after its rename keeps its session; resending the last chunk and
  committing again publishes zeros in place of the others (`ResendAfterLateCommit`). Over every run, a
  successful commit publishes the file if and only if every byte not written since the part file was
  last created is a zero (`AnyTransfer`, `LostChunksExactly`).
- A cancel does not reach a stream whose ID another stream of the upload took over or cleared
  (`SharedIdEscapesCancel`). It reaches every live stream as long as each one begins with an ID that no
  live stream of the upload has, and one begin with a live ID is enough to lose some
  (`EveryCancelReaches`, `BeginThenCancel`).
- Without a privileged store, a refused runtime receipt is lost (verdict `Dropped` in
  `DrainRuntimeQueue`).
- The comment on CommitRefresh says that a failed write leaves the old pair intact. A write that fails
  after its rename does not: the pending ID is handed out again although the disk no longer has it
  (`LateCommitLosesId`, `Store.BeginRefresh`). Keys pinned during a refresh are overwritten by its
  commit (`PinsDuringRefresh`).
- A faithful redelivery of the applied configuration is refused if and only if it brings a receipt, as all
  callers' redeliveries do, and the outbox is full (`Redelivery`, `LastReceiptBlocksRedelivery`).
- A consumed nonce is accepted again after the clock steps back, if the record was read while the
  clock was past the expiry (`ClockStepBackReopens`). With other nonces and restarts in between, the second
  use is accepted if and only if its own clock is past the expiry, or memory forgot the nonce so and
  no restart followed, or another nonce was accepted before one did (`SecondUse`).

Every runtime receipt the Agent queues has content, and the store keeps it so (`OnlyGenuineReceipts`):
success of a delivery pass means that both queues are empty (`FlushReceipts`). A damaged file could hold
an empty receipt, and it would block its queue (`EmptyReceiptBlocksQueue`).

## Model

| member | source | states |
|---|---|---|
| HostMachine.Run | internal/hostcmd/transaction_linux.go:386-600 | after any commands in any order, each cut by any failures or a crash, both journals are safe to act on |
| HostMachine.AllOrNothing | internal/hostcmd/transaction_linux.go:386-600 | from a first apply over any commands: an open journal stands over the files found before it, a closed one left them all original or the plan installed, path by path |
| HostMachine.UndoneCompletely | internal/hostcmd/transaction_linux.go:800-919 | after any commands that leave a complete fence to undo, a restoration that succeeds gives back the files from before the apply and every owner in the tree as the daemon left it when it was stopped, and starts the daemon on that |
| HostMachine.UpgradeToTheEnd | internal/hostcmd/upgrade_linux.go:22-262 | from a first attempt over any commands: pending means its backups are the files from before it, and its end is one release or those files, unless the last attempt undid its own completion |
| HostMachine.Execute | internal/hostcmd/transaction_linux.go:1064-1225 | each command carries an open transaction on over the same originals, plan and growing past until it is archived as it ends; a base is what was installed before the first attempt, and a pending upgrade keeps it |
| HostMachine.PhasesMean | internal/hostcmd/transaction_linux.go:534-600 | claiming, prepared and unclaimed mean untouched files; local_applied and completed mean all target; restored means all original; other files never change |
| HostMachine.UndoneForever | internal/hostcmd/transaction_linux.go:800-806 | once restoring is durable, whatever commands follow, the transaction is being undone until it closes over the original files |
| HostMachine.JournalsExclude | internal/hostcmd/upgrade_state_linux.go:39-74 | never an unfinished upgrade beside a transaction journal, never two unfinished upgrades |
| HostMachine.Update | internal/hostcmd/platform_linux.go:86-165 | refused while either journal is in progress or where rescue is installed; changes the executable alone |
| HostTransaction.RestorationIsFinal | internal/hostcmd/transaction_linux.go:1131-1145 | along every lawful history of phases, restoring is only followed by restoring and restored |
| HostTransaction.JournalWritten | internal/hostcmd/transaction_linux.go:99-101 | writing a journal that is true of the disk keeps every crash point safe and the history lawful |
| HostTransaction.TreeChanged | internal/hostcmd/transaction_linux.go:215-233 | owners and modes may change wherever the durable journal lists them |
| HostTransaction.FilesChanged | internal/hostcmd/transaction_linux.go:569-574 | protected files may change once the mutating or restoring phase is durable |
| HostTransaction.PutAway | internal/hostcmd/transaction_linux.go:1023-1035 | an archived journal left the files wholly original or wholly target |
| HostTransaction.RestorationEnds | internal/hostcmd/transaction_linux.go:838-883 | backups that are all put back make each protected file exactly what its backup can give back |
| HostTransaction.NothingChangedYet | internal/hostcmd/transaction_linux.go:1133-1138 | before the mutating marker, giving up is restoration |
| HostTransaction.RecoveredExactly | internal/hostcmd/transaction_linux.go:144-145 | files put back from their backups are the original ones if and only if no protected file had a set-ID or sticky bit |
| HostTransaction.TargetTouchesOnlyProtected | internal/hostcmd/transaction_linux.go:602-765 | a completed transaction changes none but the seven protected files |
| HostTransaction.TargetExactly | internal/hostcmd/transaction_linux.go:673-757 | files are the target if and only if every protected path holds what the plan puts there, or is absent or kept as it says, and no other file changed |
| HostTransaction.ProfileStarts | internal/hostcmd/transaction_linux.go:653-658 | the profile marker is written only when the whole original tree is recorded |
| HostTransaction.ReceiptSuperseded | internal/hostcmd/transaction_linux.go:85-97 | a receipt set aside stays in the journal |
| HostJournals.HostJournal.Save | internal/hostcmd/transaction_linux.go:99-101 | the journal on disk is the old one or the new one, either is safe, and the past only grows |
| HostJournals.HostJournal.Claim | internal/hostcmd/transaction_linux.go:534-548 | the claim stands over the files as they are and is durable before the panel hears of it |
| HostJournals.HostJournal.Backup | internal/hostcmd/transaction_linux.go:122-172 | a listed backup holds the original bytes, owner, permission bits or absence |
| HostJournals.HostJournal.Record | internal/hostcmd/transaction_linux.go:205-221 | an entry is durable with its first-seen owner and mode before it is changed |
| HostJournals.HostJournal.Seal | internal/hostcmd/transaction_linux.go:177-253 | everything below is root's alone, recorded, and on inodes nobody had open |
| HostJournals.HostJournal.CopyToFreshInode | internal/hostcmd/transaction_linux.go:255-283 | a sealed file is moved to an inode newer than any handed out before |
| HostJournals.HostJournal.SealChildren | internal/hostcmd/transaction_linux.go:232-247 | sealing one child does not open another |
| HostJournals.HostJournal.FenceStateDirectories | internal/hostcmd/transaction_linux.go:284-311 | the whole tree is sealed; a recovery over an unfinished first fence fences nothing |
| HostJournals.HostJournal.ExecuteTransaction | internal/hostcmd/transaction_linux.go:602-765 | success leaves the plan installed, path by path, and the restarted daemon at work on a recorded tree that belonged to the target identity alone; the tree to give back is what the stopped daemon left |
| HostJournals.HostJournal.FenceAndMark | internal/hostcmd/transaction_linux.go:618-658 | before the profile marker is durable every original path is sealed and recorded |
| HostJournals.HostJournal.PublishProfile | internal/hostcmd/transaction_linux.go:673-733 | policy, bootstrap, profile and the three helper files are the plan's, path by path; the bootstrap is root:group 0640 for a service user; an unwanted helper is gone |
| HostJournals.HostJournal.ChangeOwnership | internal/hostcmd/transaction_linux.go:767-799 | every listed path that exists gets its listed owner and mode, or the one given owner with 0600 or 0700; nothing else changes |
| HostJournals.HostJournal.RestoreFile | internal/hostcmd/transaction_linux.go:838-853 | puts one file back as its backup says and touches no other; again it changes nothing |
| HostJournals.HostJournal.RestoreFiles | internal/hostcmd/transaction_linux.go:838-853 | puts all back, however often it was interrupted; again it changes nothing |
| HostJournals.HostJournal.RestoreStateOwnership | internal/hostcmd/transaction_linux.go:885-919 | first-seen owners win; paths only the recovery fence knows follow their root |
| HostJournals.HostJournal.GiveTreeBack | internal/hostcmd/transaction_linux.go:854-856 | original files regain owner and mode, new ones get their root's owner and 0600 or 0700 |
| HostJournals.HostJournal.Undo | internal/hostcmd/transaction_linux.go:835-856 | fence, files and tree are undone together |
| HostJournals.HostJournal.Restart | internal/hostcmd/transaction_linux.go:749-749 | the daemon is at work as soon as the restart takes effect, reported or not |
| HostJournals.HostJournal.RestoreTransaction | internal/hostcmd/transaction_linux.go:800-883 | success is the durable restored phase over exactly captured files, the original ones if and only if no special bit was set, and the original service at work on a tree with every owner given back |
| HostJournals.HostJournal.Report | internal/hostcmd/transaction_linux.go:920-949 | a receipt is durable before it is sent and kept until accepted; success means that the panel was sent just this one and took it |
| HostJournals.HostJournal.ReportRestoration | internal/hostcmd/transaction_linux.go:950-979 | a receipt for another phase is set aside, never lost |
| HostJournals.HostJournal.ArchiveJournal | internal/hostcmd/transaction_linux.go:1023-1035 | the whole directory moves or nothing does |
| HostJournals.HostJournal.FinishHost | internal/hostcmd/transaction_linux.go:981-1022 | only the daemon's acknowledgement completes a transaction |
| HostCommands.Apply | internal/hostcmd/transaction_linux.go:386-600 | refused beside any journal or unfinished upgrade; success leaves the plan installed, path by path; an open journal stands over the files found and the tree of the stopped daemon; if none is left, the files are all original or all target |
| HostCommands.BackUpAll | internal/hostcmd/transaction_linux.go:564-572 | all seven files are backed up before the mutating phase |
| HostCommands.UndoFailedApply | internal/hostcmd/transaction_linux.go:573-590 | a failed execution whose journal is gone has its files put back exactly, and the original service at work on a returned tree |
| HostCommands.Resume | internal/hostcmd/transaction_linux.go:1064-1225 | from any journal, closing it means all original files, or the plan installed where it finishes; after undoing, the original service is at work on a returned tree |
| HostCommands.Recover | internal/hostcmd/transaction_linux.go:1131-1163 | undoing succeeds only with the files recovered, the tree returned to the original service and the journal archived |
| HostCommands.RestoreLocally | internal/hostcmd/transaction_linux.go:1131-1144 | local restoration ends in the durable restored phase without asking the panel |
| HostCommands.Abandon | internal/hostcmd/transaction_linux.go:1109-1130 | an unclaimed transaction changed nothing |
| HostCommands.DropReceipt | internal/hostcmd/transaction_linux.go:1183-1188 | a receipt is dropped only when the panel needs it no more |
| StateTree.OriginalOwnersReturn | internal/hostcmd/transaction_linux.go:885-919 | wherever the fence was cut, original files end with their original owner and bits |
| StateTree.NewFilesFollowTheirRoot | internal/hostcmd/transaction_linux.go:895-913 | files created under the fence get their root's original owner and 0600 or 0700 |
| StateTree.ModeSurvivesExactly | internal/hostcmd/transaction_linux.go:217-217 | a recorded mode restores the original one if and only if it had no special bit |
| StateTree.DirectorySealed | internal/hostcmd/transaction_linux.go:232-247 | a sealed directory with sealed children is sealed all the way down |
| StateTree.RootsCoverTree | internal/hostcmd/transaction_linux.go:297-309 | sealing every root seals the tree |
| StateTree.ListGivesBack | internal/hostcmd/transaction_linux.go:885-919 | applying the restore list gives every recorded path back |
| UpgradeState.PendingSoftwareUpgrade | internal/hostcmd/upgrade_state_linux.go:50-119 | finds the only unfinished upgrade, with a valid journal, or refuses |
| UpgradeState.SafeModeDigits | internal/hostcmd/upgrade_state_linux.go:85-89 | safe modes in octal digits: the owner reads, nobody else writes, executables can be executed, the configuration is private |
| SoftwareUpgrade.UpgradeLeaves | internal/hostcmd/upgrade_linux.go:182-262 | completed means all new and restored means all old, unless a completed upgrade was undone |
| SoftwareUpgrade.PhaseIsTrustedExactly | internal/hostcmd/upgrade_linux.go:258-262 | the phase can be trusted after every failure if and only if completion is never undone or changes nothing |
| SoftwareUpgrade.CompletedMixture | internal/hostcmd/upgrade_linux.go:186-200 | the failing runs: under a completed phase the files up to one are old and those after it new |
| SoftwareUpgrade.AttemptLeaves | internal/hostcmd/upgrade_linux.go:226-262 | nothing finished is on disk before all four files are the release's |
| SoftwareUpgrade.RollbackLeaves | internal/hostcmd/upgrade_linux.go:186-225 | a rollback puts all four back or stays pending, and never touches the backups |
| SoftwareUpgrade.UpgradeSucceedsExactly | internal/hostcmd/upgrade_linux.go:182-262 | an upgrade succeeds if and only if both units stopped, all files and phases were written, and each active unit was restarted and passed its check; no file is touched before both units stopped |
| SoftwareUpgrade.RollbackEndsExactly | internal/hostcmd/upgrade_linux.go:186-225 | a rollback ends restored if and only if all of it went well: stops, files, restarts and checks of the active units |
| SoftwareUpgrade.RestoredMeans | internal/hostcmd/upgrade_linux.go:182-262 | an upgrade that ends restored did fail, and everything is back and was found running |
| UpgradeCommand.ReplaceTogether | internal/hostcmd/upgrade_linux.go:226-262 | the imperative attempt does what the specification says at every fate |
| UpgradeCommand.RollBack | internal/hostcmd/upgrade_linux.go:186-225 | so does the deferred rollback |
| UpgradeCommand.AttemptEnds | internal/hostcmd/upgrade_linux.go:182-262 | an unfinished end still has the base backups; a finished one is base or release |
| UpgradeCommand.UpgradeInstalledRescue | internal/hostcmd/upgrade_linux.go:22-262 | a base is the installation found by the first attempt and stays so over all retries; success is one release with every restarted unit found running; restored means all put back and running; a pending upgrade over a base that is not executable is refused and nothing changes |
| UpgradeCommand.Retry | internal/hostcmd/upgrade_linux.go:118-132 | a retry starts from the original backups, modes and states; it succeeds if and only if the three executables were ELF and no step of it failed |
| UpgradeCommand.FirstAttempt | internal/hostcmd/upgrade_linux.go:133-184 | the backups and the base are exactly what is installed |
| UpgradeCommand.ReadUpgradeBackups | internal/hostcmd/upgrade_state_linux.go:93-119 | succeeds if and only if four backups can be read and the executables are still ELF |
| UpgradeCommand.Stranded | internal/hostcmd/upgrade_linux.go:140-161 | the failing run: a first attempt over a base that is no executable dies and stays pending |
| UpgradeCommand.CreateBackups | internal/hostcmd/upgrade_linux.go:163-174 | an interrupted creation leaves no journal and disturbs no other upgrade |
| UploadSpec.ParseUploadStreamSpec | files/stream.go:344-381 | accepts exactly the chunks of a correct cut whose rounding sum fits 64 bits |
| UploadSpec.ChunksTile | files/stream.go:362-378 | every byte of the file lies in exactly one accepted chunk |
| UploadSpec.CountIsCeiling | files/ops.go:569-574 | an accepted count is the ceiling and nothing overflowed |
| UploadSession.AllChunksAreTheFile | files/ops.go:720-724 | as many parts as chunks means every byte is the file's |
| UploadSession.FaithfulWritesKeepChunks | files/stream.go:507-516 | overlapping, repeated or partial writes of the same file disturb no chunk |
| UploadSession.Upload.WriteUploadStreamChunk | files/stream.go:403-505 | exactly what an attempt of any fate does; a chunk is counted only after all its bytes are in place |
| UploadSession.Upload.CopyBlocks | files/stream.go:459-470 | writes a prefix of the chunk at its offset: all of it, or whole buffers up to the break |
| UploadSession.Upload.CommitFileUpload | files/ops.go:662-768 | commits exactly when everything matches and is complete, and then publishes the file |
| UploadSession.Upload.CancelFileUpload | files/ops.go:597-657 | succeeds if and only if the path fits the session and the removal works, and then session and part file are gone; otherwise both stay; never touches the target |
| UploadSession.AnyTransfer | files/ops.go:662-768 | every run with commits of any ending is the run of the step functions; a commit that succeeds publishes the file if and only if all bytes not written since the part file was last created are zeros; always, while no commit failed late |
| UploadSession.ResendAfterLateCommit | files/ops.go:754-762 | the failing run: zeros are published, the right file if and only if they belong there |
| UploadSession.LostChunksExactly | files/ops.go:754-762 | a part file is the file if and only if the bytes never written to it are zeros |
| UploadLifecycle.Registry.Begin | files/stream.go:234-261 | starts a stream unless an unexpired tombstone stands; the count follows the live streams |
| UploadLifecycle.Registry.End | files/stream.go:262-284 | closes the idle channel exactly with the last live stream, never twice |
| UploadLifecycle.Registry.WaitStep | files/stream.go:286-304 | returns exactly when nothing is live, else an open channel that will be closed |
| UploadLifecycle.Registry.Cancel | files/stream.go:306-331 | leaves a tombstone and calls exactly the undisplaced named streams |
| UploadLifecycle.Registry.Prune | files/stream.go:333-342 | forgets expired tombstones, never an upload with live streams |
| UploadLifecycle.Interleave | files/stream.go:234-342 | every interleaving is the run of the moments, with exactly what each locked section starts and calls |
| UploadLifecycle.NoneStarts | files/stream.go:234-249 | in every interleaving, no stream of a cancelled upload starts while its tombstone stands |
| UploadLifecycle.CancelledStaysQuiet | files/stream.go:306-342 | for fifteen minutes after a cancel the upload gets no new stream |
| UploadLifecycle.SharedIdEscapesCancel | files/stream.go:257-270 | the failing run: a live stream that a cancel does not reach |
| UploadLifecycle.EveryCancelReaches | files/stream.go:234-331 | in every interleaving, while each stream begins with an ID of its own, every cancel reaches exactly the live streams |
| UploadLifecycle.BeginThenCancel | files/stream.go:257-330 | a cancel after one more begin reaches every stream if and only if the ID was not live, and misses exactly those that had it |
| PrivilegedState.SubsetIsAPartialOrder | core/privileged/approval.go:13-17 | Subset is reflexive, antisymmetric and transitive, with the empty settings lowest |
| PrivilegedState.EffectiveIsTheGreatestLowerBound | core/privileged/approval.go:88-99 | effective settings are the widest within active that a pending revision leaves |
| PrivilegedState.EveryVersionIsSane | core/privileged/store.go:158-234 | in every durable version, pending is newer than applied and both logs are bounded |
| PrivilegedState.SequenceNeverDecreases | core/privileged/store.go:201-222 | the sequence never goes back, not even by a rollback |
| PrivilegedState.OnlyApprovalWidens | core/privileged/approval.go:60-86 | without an approval or baseline in between, later capabilities are within earlier ones |
| PrivilegedState.AppliedWithItsAck | core/privileged/approval.go:60-86 | the version that raises the applied revision holds its ACK |
| PrivilegedState.ReceiptsStayUntilFinished | core/privileged/baseline.go:94-114 | a receipt stays in every later version until a change finishes its ID |
| PrivilegedState.FinishingAccountsForEverything | core/privileged/baseline.go:94-114 | a finished receipt is gone or in the log of the last 128; no other moves |
| PrivilegedState.RollbackUndoesApproval | core/privileged/store.go:201-222 | a rollback undoes the last approval exactly once, if and only if that widens nothing |
| PrivilegedState.OutboxKeepsOrder | core/privileged/baseline.go:79-114 | along any history the receipts not finished since stay in front, in their order |
| PrivilegedState.WithoutKeepsOrder | core/privileged/baseline.go:98-106 | removing an ID keeps the order of the rest |
| PrivilegedStore.Store.Commit | core/privileged/store.go:276-333 | compares and swaps; a failure after the rename leaves the next version on disk |
| PrivilegedStore.Store.RecordPending | core/privileged/store.go:158-193 | stores exactly an allowed revision, applying none of it |
| PrivilegedStore.Store.Rollback | core/privileged/store.go:201-222 | restores the previous settings, never wider ones |
| PrivilegedStore.Store.DiscardPending | core/privileged/store.go:225-234 | drops a pending revision; with none it writes nothing |
| PrivilegedStore.Store.ApplyApproved | core/privileged/approval.go:44-53 | an approval becomes active, with its ACK, if and only if it is signed, awaited, bound to this revision in every field, in force at the clock, and newer; from its expiry on it changes nothing |
| PrivilegedStore.Store.ApplyHostApproved | core/privileged/approval.go:54-59 | only a bound host operation's target becomes active, together with its ACK |
| PrivilegedStore.Store.AdoptBaseline | core/privileged/baseline.go:46-78 | a baseline starts a history and never replaces one |
| PrivilegedStore.Store.Enqueue | core/privileged/baseline.go:79-93 | appends once per ID, up to 1024 |
| PrivilegedStore.Store.FinishReceipt | core/privileged/baseline.go:94-114 | removes every entry of one ID, into the rejected log if there is a reason |
| PrivilegedStore.StaleHandleIsRefused | core/privileged/store.go:282-292 | over any turns of all handles, a stale handle is refused and keeps its view until it is reopened or the disk is again what it saw |
| PrivilegedStore.LateFailureMakesStale | core/privileged/store.go:324-333 | a commit of any change that fails after its rename leaves the next version on disk and, if that differs, a stale handle |
| PrivilegedStore.TakeTurns | core/privileged/store.go:276-333 | any turns of any handles do and report exactly what the turns as functions say, and leave one linear history |
| PrivilegedStore.SuccessIsFromDisk | core/privileged/store.go:276-333 | a turn that succeeds was computed from what was on disk, which then holds it; the other handles see nothing of it |
| ReceiptDelivery.DrainRuntimeQueue | clientcore/baseline.go:237-266 | receipts leave from the head, in order, only after a final answer; a refused one is diagnosed or dropped |
| ReceiptDelivery.DeliverHead | clientcore/baseline.go:237-266 | the head leaves only when the panel took it or refused it for good |
| ReceiptDelivery.DeliverOutbox | clientcore/baseline.go:270-336 | one pass keeps the order of what stays; an accepted entry leaves no trace, a refused one goes for a reason; success empties it |
| ReceiptDelivery.FlushReceipts | clientcore/baseline.go:234-337 | success leaves nothing to deliver in either queue |
| ReceiptDelivery.NothingStuck | clientcore/baseline.go:237-237 | a queue without empty receipts is emptied |
| ReceiptDelivery.EmptyReceiptBlocksQueue | clientcore/baseline.go:237-237 | in a damaged queue an empty receipt is never passed |
| PrivilegedState.OneMoreFinished | core/privileged/baseline.go:98-107 | finishing IDs one after another removes exactly those |
| HeartbeatGate.Gate.Accept | rescue/host_authorization.go:104-122 | accepts exactly the authentic, fresh, strictly newer frames |
| HeartbeatGate.AcceptedOnce | rescue/host_authorization.go:116-121 | no frame is accepted twice |
| HeartbeatGate.Gate.OnReceived | rescue/host_authorization.go:228-260 | opens the gate exactly for an acceptable, granted frame that the policy allows |
| HeartbeatGate.Gate.OnTick | rescue/host_authorization.go:261-306 | an open gate is connected and rests on a frame issued under ten seconds ago; no stream stays connected that was silent for ten seconds |
| HeartbeatGate.TickKeepsOpen | rescue/host_authorization.go:261-306 | an open gate stays open at a tick if and only if none of four reasons closes it |
| HeartbeatGate.TickOpensNothing | rescue/host_authorization.go:261-288 | a tick never opens the gate and connects a closed one when its time has come |
| HeartbeatGate.SilentStreamIsGivenUp | rescue/host_authorization.go:285-288 | a connected stream silent for ten seconds ends the tick disconnected with its retry scheduled, open gate or closed |
| HeartbeatGate.Gate.KeepConnected | rescue/host_authorization.go:266-288 | reconnecting extends no open gate; a stream silent for ten seconds is given up and tried again later, be the gate open or closed |
| HeartbeatGate.Gate.Handoff | rescue/host_authorization.go:197-215 | new credentials drop the stream and keep the deadline; lost ones close the gate |
| HeartbeatGate.Gate.Deny | rescue/host_authorization.go:176-185 | the lease flag is cleared before the authorization flag |
| HeartbeatGate.Gate.Disconnect | rescue/host_authorization.go:186-195 | closes the gate and doubles the backoff up to thirty seconds |
| HeartbeatGate.Gate.Stop | rescue/host_authorization.go:165-171 | the loop ends closed, with no stream left |
| HeartbeatGate.Run | rescue/host_authorization.go:154-308 | every run is the run of the event functions; a gate open after a tick is connected and rests on a granted frame of the last ten seconds, no stream connected after a tick was silent as long, and a lease never outlives authorization at any store |
| HeartbeatGate.RevocationIsBounded | rescue/host_authorization.go:71-75 | ten seconds after the last signed grant the gate is closed at every tick |
| SystemdWords.SplitWords | internal/hostcmd/systemd.go:130-193 | the byte loop is the scanner; accepted words hold no NUL |
| SystemdWords.QuoteThenSplit | internal/hostcmd/systemd.go:194-200 | splitting quoted arguments doubles percent and dollar signs and gives them back, if and only if none has a newline or NUL |
| SystemdWords.SplitMeans | internal/hostcmd/systemd.go:130-193 | any line of words made of bare bytes, backslashes, hexadecimal escapes and both kinds of quotes, with any blanks, splits into what they stand for |
| SystemdWords.BadTokens | internal/hostcmd/systemd.go:138-190 | unknown and truncated escapes, bad or zero hexadecimal bytes and unclosed quotes are refused after any beginning |
| SystemdWords.NoLineEnds | internal/hostcmd/systemd.go:179-181 | no accepted line holds a newline or a NUL |
| SystemdWords.ReplacedIsBytewise | internal/hostcmd/systemd.go:194-200 | the four replacements do not disturb each other |
| SystemdWords.DoubledIsInjective | internal/hostcmd/systemd.go:197-198 | different arguments stay different |
| SystemdWords.LinesConcatenate | internal/hostcmd/systemd.go:130-193 | accepted lines joined by a space have the words of both |
| ReplayGuard.Guard.Consume | core/signing/replay.go:68-100 | accepts exactly an unrecorded nonce with an expiry, and has it on disk before returning |
| ReplayGuard.Guard.Prune | core/signing/replay.go:138-157 | drops the expired, then the earliest, keeping at most 4096 with the latest expiries |
| ReplayGuard.Guard.Load | core/signing/replay.go:115-136 | reads the record once; an unreadable one is an error |
| ReplayGuard.StaysRecorded | core/signing/replay.go:138-157 | an unexpired nonce stays while fewer than 4096 others expire as late |
| ReplayGuard.CrowdedOut | core/signing/replay.go:144-156 | it is lost when 4096 others expire later |
| ReplayGuard.NeverTwice | core/signing/replay.go:68-157 | a consumed nonce is refused up to its expiry in every run with restarts |
| ReplayGuard.SecondUse | core/signing/replay.go:82-92 | over any other nonces, looks, failures and restarts, the second use is accepted if and only if its clock is past the expiry, or memory forgot the nonce past the expiry and no restart followed, or another nonce was accepted before one did |
| ReplayGuard.AnyUses | core/signing/replay.go:68-157 | over any steps exactly which uses of a nonce are accepted, while fewer than 4096 others are on record |
| ReplayGuard.ForgottenExactly | core/signing/replay.go:68-157 | when a used nonce is gone from memory, and when from disk |
| ReplayGuard.ClockStepBackReopens | core/signing/replay.go:138-143 | the failing run: the clock passes the expiry and steps back |
| CredentialStore.Store.BeginRefresh | core/credentials/store.go:349-365 | returns the pending ID, which is on disk if and only if no commit failed late before |
| CredentialStore.Store.CommitRefresh | core/credentials/store.go:369-389 | commits exactly the pending refresh and advances a known generation by one |
| CredentialStore.Store.PinTrustBundle | core/credentials/store.go:230-247 | replaces the pins alone |
| CredentialStore.Store.UpdateCredentials | core/credentials/store.go:199-227 | rotates the pair; an empty refresh token keeps the old one |
| CredentialStore.CommittedAtMostOnce | core/credentials/store.go:369-389 | no ID is committed twice in any run with failures and reopenings |
| CredentialStore.SamePendingId | core/credentials/store.go:349-365 | until its commit the ID is the same over retries and reopenings, and on disk |
| CredentialStore.LateCommitLosesId | core/credentials/store.go:384-388 | the failing run: an ID handed out that the disk does not have |
| CredentialStore.PinsDuringRefresh | core/credentials/store.go:380-388 | the refresh commits, and pins stored meanwhile last if and only if it began with them |
| RuntimeConfig.LaterDeliveryWins | core/runtimeconfig/store.go:283-357 | two deliveries in a row are one with the later settings over the earlier ones |
| RuntimeConfig.FromProtoIsIdempotent | core/runtimeconfig/store.go:283-333 | applying a delivery to its own result changes nothing |
| RuntimeConfig.FromProto | core/runtimeconfig/store.go:283-333 | each setting is the delivered one, cleaned if a list, or the one before; the local-only ones stay |
| RuntimeConfig.RefusedExactly | core/runtimeconfig/store.go:283-357 | a delivery is refused if and only if it has unknown or local-only settings or breaks one of the limits |
| RuntimeConfig.CleanedTwice | core/runtimeconfig/store.go:365-374 | a cleaned list is trimmed, has no blanks and is cleaned by nothing more |
| RuntimeConfig.CleanedInOrder | core/runtimeconfig/store.go:365-374 | cleaning trims each entry, drops the blank ones and keeps the order |
| Text.TrimmedEnds | core/runtimeconfig/store.go:365-374 | trimming takes white space off both ends and nothing else |
| RuntimeConfig.Clean | core/runtimeconfig/store.go:365-374 | the loop computes the cleaned list |
| RuntimeConfig.ApplyMovesForward | core/runtimeconfig/store.go:129-178 | applying takes exactly the delivered configuration, never goes back, and appends its receipt behind the waiting ones |
| RuntimeConfig.AppliedExactly | core/runtimeconfig/store.go:129-178 | a configuration is refused if and only if it is missing, older, unacceptable, different at the same revision, or its receipt does not fit |
| RuntimeConfig.Redelivery | core/runtimeconfig/store.go:147-164 | a redelivery changes no snapshot and is refused if and only if its receipt finds the outbox full; other content at that revision is refused |
| RuntimeConfig.LastReceiptBlocksRedelivery | core/runtimeconfig/store.go:144-146 | the failing run: the delivery whose receipt filled the outbox is refused when it comes again |
| RuntimeConfig.RollbackTwiceIsIdentity | core/runtimeconfig/store.go:179-193 | two rollbacks are none, in memory and on disk |
| RuntimeConfig.Store.ApplyWithReceipt | core/runtimeconfig/store.go:129-178 | memory and disk change together with the receipt, or not at all in memory |
| RuntimeConfig.OnlyGenuineReceipts | core/runtimeconfig/receipt.go:15-48 | as every payload given to it has content, no run holds an empty receipt, in memory or on disk |
| RuntimeConfig.OperateAll | core/runtimeconfig/store.go:95-193 | any operations with any outcomes and restarts are the run of the operations as functions |
| RuntimeConfig.RevisionNeverFalls | core/runtimeconfig/store.go:129-178 | without a rollback the applied revision never goes back, not even by late writes and restarts |
| RuntimeConfig.RollbackUndoesApply | core/runtimeconfig/store.go:129-193 | a rollback after a newer configuration can be undone by delivering it again |
| RuntimeConfig.Store.Rollback | core/runtimeconfig/store.go:179-193 | swaps current and previous, durably |
| RuntimeConfig.Store.QueueReceipt | core/runtimeconfig/receipt.go:23-35 | appends up to 1024 |
| RuntimeConfig.Store.FinishReceipt | core/runtimeconfig/receipt.go:36-48 | only the head leaves, and only if it is the one named |
| TrafficTotals.Account | monitoring/netstatic/static.go:387-415 | totals depend on the readings alone, on any schedule of flushes |
| TrafficTotals.NetStatic.SampleOne | monitoring/netstatic/static.go:201-228 | one reading keeps the books; a first one and one without traffic leave no entry |
| TrafficTotals.NetStatic.FlushCache | monitoring/netstatic/static.go:230-246 | flushing changes no total, even when sums wrap |
| TrafficTotals.NetStatic.PurgeExpired | monitoring/netstatic/static.go:173-191 | drops exactly the expired entries and keeps the books |
| TrafficTotals.KeepRecent | monitoring/netstatic/static.go:178-190 | the filter works in the array itself and keeps the order |
| TrafficTotals.RecentExactly | monitoring/netstatic/static.go:178-184 | what is not older than the cutoff stays, in order, and everything older goes |
| TrafficTotals.NetStatic.GetTotalTraffic | monitoring/netstatic/static.go:387-415 | adds up store and cache by interface |
| TrafficTotals.Telescopes | monitoring/netstatic/static.go:193-199 | without a reset the total is last less first, exactly |
| TrafficTotals.ResetSplits | monitoring/netstatic/static.go:193-199 | a reset splits the total into the stretches around it |
| TrafficTotals.CountersAreIndependent | monitoring/netstatic/static.go:193-199 | sent and received bytes are accounted for independently |
| ResetDate.LatestOfAllResets | utils/utils.go:9-37 | the result is the latest of the resets of all months that is not after the date, at most thirty days back |
| ResetDate.ResetGap | utils/utils.go:40-58 | resets of successive months are one to thirty-one days apart |
| ResetDate.ResetIsFixed | utils/utils.go:9-37 | a reset date is its own last reset date |
| ResetDate.LastDayIsMonthLength | utils/utils.go:41-43 | the day before the next first is the length of the month, leap years included |
| ResetDate.ActualResetDate | utils/utils.go:37-58 | the reset day of the month, or the first of the next if the month has no such day |

## Left out

- Network transports, protobuf and JSON encodings, DPoP, DNS and the signature algorithms: encodings are taken as injective and checks as outcomes.
- systemd, PAM, process observation, the temporary SSH window and what the panel answers: outcomes only. The look at the helper's unit file during a restoration is taken to succeed.
- The seven protected files are taken to lie outside the state roots, the four upgraded paths to be distinct (`FourPaths`), the seven as well where it is told path by path what is installed (`SevenPaths`), and a systemd directory created for the profile is not removed by a restoration, as in the source.
- File ACLs, extended attributes, timestamps and what a rename without a directory sync can lose in a power failure.
- UpgradeInstalledRescue: a rollback is compared with the base in bytes and permission bits; it leaves the files owned by root, as the source's writes do.
- HostMachine.Update: the copy `agent.previous` and the record `update.json` in the journal directory, which nothing reads back.
- HostJournal.CopyToFreshInode: the temporary copy in the same directory, which a crash strands there as a root-owned file with mode 0600; the model's tree keeps its paths.
- HostMachine.Run: nobody but the host tools edits a protected file while a transaction journal is open; between transactions anyone may.
- HostJournal.Restart: the daemon's work between two commands or operations is one step from one tree to another, and a stopped daemon does nothing.
- HostJournal.GiveTreeBack: says nothing of original files that the daemon replaced before any fence recorded them.
- Upload.WriteUploadStreamChunk: an attempt ends before a commit starts and two uploads never share a part path; the two zero-field branches of a session, which no writer produces, are not modelled, and the file is assumed to have one content.
- Upload.CancelFileUpload: the wait for live streams is in the lifecycle model, not here.
- Registry.WaitStep: one look under the lock; the source's wait repeats it each time the channel closes.
- ReceiptDelivery.FlushReceipts: runs with no producer beside it; a saved host observation that is invalid counts as a final refusal, and response codes are reduced to four answers.
- PrivilegedStore.Store.Commit: the hash of the file is taken to be collision-free, so handles compare contents.
- Gate.Connect: the twenty-five minute limit of a stream, and frames of a dropped stream, which the source's fresh channel never delivers.
- Helper.Run's other use of the lease flag, for installations without host trust.
- parseExecStart and the command-line flags around the word splitter.
- Guard.Consume: holds up to a nonce's expiry only; the two minutes of clock skew that the signature check allows are not part of this model.
- CredentialStore.Store: one process with reopenings; enrollment (`Save`), logout (`Clear`) and a second process writing the same file.
- Totals between two dates, whose cached samples are restamped by a flush, the saved file of the accounts and the loss of the cache at a crash.
- ResetDate.LastResetDate: plain Gregorian days, without time zones and daylight saving.
- Metric collectors, terminals, the self-update, other platforms and logging, which would only add easy members.
