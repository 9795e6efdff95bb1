/** The two commands that work on the transaction journal, each under the host lock. */
module HostCommands {
  import opened Options
  import opened HostDisk
  import opened StateTree
  import opened UpgradeState
  import opened HostTransaction
  import opened HostJournals

  /** `apply`: at most one transaction, never beside an unfinished software upgrade. */
  method Apply(d: Disk, plan: Plan, owner: int, previousHelper: bool, work: Work) returns (ok: bool)
    requires Inv(d)
    modifies d
    ensures Inv(d)
    ensures d.up ==> old(d.up)
    ensures UpgradesKept(d)
    ensures old(d.saved).Some? || !Idle(old(d.upgrades)) ==> Untouched(d) && !ok
    ensures ok ==> d.files == Target(d.layout, plan, old(d.files))
    ensures ok && SevenPaths(d.layout) ==> Installed(d.files, old(d.files), d.layout, plan)
    ensures old(d.saved).None? && d.saved.Some? ==>
              d.original == old(d.files) && d.plan == plan && d.archives == old(d.archives)
    ensures old(d.saved).None? && d.saved.Some? && d.saved.value.fence.Profile? ==>
              d.firstTree == old(Stopped(d, work.untilStopped))
    ensures d.saved.None? ==>
              Recovered(d.files, old(d.files), d.layout) || d.files == Target(d.layout, plan, old(d.files))
  {
    hide Inv, JournalOk, Recovered, Target, Idle, Acts, Installed, SevenPaths;
    UnchangedIsRecovered(d.files, d.layout);
    var pending := PendingSoftwareUpgrade(d);
    if !pending.NonePending? { return false; }
    ok := d.Ask();
    if !ok || d.saved.Some? { return false; }
    ok := ClaimAndTransact(d, plan, owner, previousHelper, work);
    if ok && SevenPaths(d.layout) { TargetInstalls(old(d.files), d.layout, plan); }
  }

  method ClaimAndTransact(d: Disk, plan: Plan, owner: int, previousHelper: bool, work: Work) returns (ok: bool)
    requires Inv(d) && d.saved == None && Idle(d.upgrades)
    modifies d
    ensures Inv(d)
    ensures d.up ==> old(d.up)
    ensures UpgradesKept(d)
    ensures ok ==> d.files == Target(d.layout, plan, old(d.files))
    ensures d.saved.Some? ==> d.original == old(d.files) && d.plan == plan && d.archives == old(d.archives)
    ensures d.saved.Some? && d.saved.value.fence.Profile? ==>
              d.firstTree == old(Stopped(d, work.untilStopped))
    ensures d.saved.None? ==>
              Recovered(d.files, old(d.files), d.layout) || d.files == Target(d.layout, plan, old(d.files))
  {
    hide Inv, JournalOk, Recovered, Target, Idle, Acts, EndsArchived;
    UnchangedIsRecovered(d.files, d.layout);
    var j := new HostJournal(d, Journal(Claiming, false, [], [], [], Unfenced, None, [], previousHelper));
    ok := j.Claim(plan);
    if !ok { return; }
    ok := Transact(j, plan, owner, work);
  }

  /** Everything between the durable claim and the end of the command. */
  method Transact(j: HostJournal, plan: Plan, owner: int, work: Work) returns (ok: bool)
    requires j.Synced() && Fresh(j.s) && j.disk.plan == plan && j.disk.original == j.disk.files
    modifies j`s, j.disk`up, j.disk`files, j.disk`tree, j.disk`nextInode, j.disk`copies, j.disk`upgrades
    modifies j.disk`saved, j.disk`history, j.disk`issued, j.disk`sent, j.disk`settled, j.disk`archives
    modifies j.disk`firstTree, j.disk`touched
    ensures Inv(j.disk)
    ensures j.disk.up ==> old(j.disk.up)
    ensures UpgradesKept(j.disk) && CarriedOn(j.disk)
    ensures ok ==> j.disk.files == Target(j.disk.layout, plan, old(j.disk.files))
    ensures j.disk.saved.Some? && j.disk.saved.value.fence.Profile? ==>
              j.disk.firstTree == old(Stopped(j.disk, work.untilStopped))
    ensures j.disk.saved.None? ==>
              || Recovered(j.disk.files, old(j.disk.files), j.disk.layout)
              || j.disk.files == Target(j.disk.layout, plan, old(j.disk.files))
  {
    hide Inv, Sound, EndsArchived, Recovered, PutBackExactly, Target, Acts, NotedSince, Unrecorded, TreeReturned,
         Differences, Fresh, Installed, SevenPaths;
    ok := PrepareAndBackUp(j);
    if !ok { return; }
    ghost var h;
    ok, h := j.ExecuteTransaction(plan, owner, work);
    if !ok {
      ok, h := UndoFailedApply(j, owner, work);
      return false;
    }
    ok := ReportApplied(j);
  }

  method PrepareAndBackUp(j: HostJournal) returns (ok: bool)
    requires j.Synced() && Fresh(j.s)
    modifies j`s, j.disk`up, j.disk`copies, j.disk`saved, j.disk`history, j.disk`issued, j.disk`sent, j.disk`settled
    ensures Inv(j.disk)
    ensures j.disk.up ==> old(j.disk.up)
    ensures old(j.disk.history) <= j.disk.history
    ensures j.disk.saved.Some? && j.disk.saved.value.fence.Unfenced?
    ensures ok ==> j.disk.up && j.Synced() && j.s.phase.Mutating? && j.disk.files == j.disk.original
    ensures ok ==> Unrecorded(j.s)
  {
    hide Inv, JournalOk;
    ok := Prepare(j);
    if !ok { return; }
    ok := BackUpAll(j);
    if !ok { return; }
    MutationStarts(j.disk, j.s);
    j.s := j.s.(phase := Mutating);
    ok := j.Save();
  }

  /** The panel has the claim and knows that the files are about to change. */
  method Prepare(j: HostJournal) returns (ok: bool)
    requires j.Synced() && Fresh(j.s)
    modifies j`s, j.disk`up, j.disk`saved, j.disk`history, j.disk`issued, j.disk`sent, j.disk`settled
    ensures Sound(j.disk, j.s)
    ensures j.disk.up ==> old(j.disk.up)
    ensures old(j.disk.history) <= j.disk.history
    ensures j.disk.saved.value.fence.Unfenced?
    ensures ok ==> j.disk.up && j.Synced() && j.s.phase.Prepared?
  {
    hide Inv, JournalOk;
    ok := j.disk.Ask();
    if !ok { return; }
    NothingChangedYet(j.disk, j.s);
    j.s := j.s.(phase := Prepared, operation := true);
    ok := j.Save();
    if !ok { return; }
    ok := j.Report(ReportApplying);
  }

  method BackUpAll(j: HostJournal) returns (ok: bool)
    requires j.Synced() && j.s.phase.Prepared?
    modifies j`s, j.disk`up, j.disk`copies, j.disk`saved, j.disk`history, j.disk`issued
    ensures Sound(j.disk, j.s) && j.s.phase.Prepared?
    ensures j.disk.up ==> old(j.disk.up)
    ensures old(j.disk.history) <= j.disk.history
    ensures j.disk.saved.value.fence == j.s.fence == old(j.s).fence
    ensures ok ==> j.disk.up && j.Synced() && Complete(j.s.backups, j.disk.layout)
  {
    hide Sound, BackedUp;
    var paths := j.disk.layout.Protected();
    for i := 0 to |paths|
      invariant j.Synced() && j.s.phase.Prepared? && (j.disk.up ==> old(j.disk.up))
      invariant old(j.disk.history) <= j.disk.history && j.s.fence == old(j.s).fence
      invariant forall k :: 0 <= k < i ==> BackedUp(paths[k], j.s.backups)
    {
      ghost var before := j.s.backups;
      ok := j.Backup(paths[i]);
      if !ok { return; }
      forall k | 0 <= k < i ensures BackedUp(paths[k], j.s.backups) {
        StillBackedUp(paths[k], before, j.s.backups);
      }
    }
    ok := j.disk.up;
  }

  /** The execution failed in this process, so its journal may be ahead of the disk. */
  method UndoFailedApply(j: HostJournal, owner: int, work: Work) returns (ok: bool, ghost h: Handover)
    requires Sound(j.disk, j.s) && j.s.phase.Mutating? && j.disk.saved.value.phase.Mutating?
    requires Unrecorded(j.s) ==> Unrecorded(j.disk.saved.value)
    modifies j`s, j.disk`up, j.disk`files, j.disk`tree, j.disk`nextInode, j.disk`copies, j.disk`upgrades
    modifies j.disk`saved, j.disk`history, j.disk`issued, j.disk`sent, j.disk`settled, j.disk`archives
    modifies j.disk`firstTree, j.disk`touched
    ensures Inv(j.disk)
    ensures j.disk.up ==> old(j.disk.up)
    ensures UpgradesKept(j.disk) && CarriedOn(j.disk)
    ensures j.disk.saved.Some? && j.disk.saved.value.fence.Profile? ==> j.disk.firstTree == old(j.disk.firstTree)
    ensures j.disk.saved.None? ==> Recovered(j.disk.files, j.disk.original, j.disk.layout)
    ensures j.disk.saved.None? ==> PutBackExactly(j.disk.files, j.disk.original, j.disk.layout)
    ensures j.disk.saved.None? ==> j.Returned(h, work.asOriginal)
    ensures NotedSince(old(j.s), old(NotesOf(j.disk)),
                       Notes(old(Stopped(j.disk, work.untilUndone)), j.disk.firstTree, h.touched))
  {
    hide Inv, JournalOk, EndsArchived, Recovered, PutBackExactly, TreeReturned, Acts;
    ok, h := SaveAndRestore(j, owner, work);
    if !ok { return; }
    ok := ReportAndArchive(j);
  }

  method SaveAndRestore(j: HostJournal, owner: int, work: Work) returns (ok: bool, ghost h: Handover)
    requires Sound(j.disk, j.s) && j.s.phase.Mutating? && j.disk.saved.value.phase.Mutating?
    requires Unrecorded(j.s) ==> Unrecorded(j.disk.saved.value)
    modifies j`s, j.disk`up, j.disk`files, j.disk`tree, j.disk`nextInode
    modifies j.disk`saved, j.disk`history, j.disk`issued, j.disk`firstTree, j.disk`touched
    ensures Sound(j.disk, j.s)
    ensures j.disk.up ==> old(j.disk.up)
    ensures old(j.disk.history) <= j.disk.history
    ensures ok ==> j.disk.up && j.Synced() && j.s.phase.Restored? && j.Returned(h, work.asOriginal)
    ensures ok ==> PutBackExactly(j.disk.files, j.disk.original, j.disk.layout)
    ensures ok ==> Recovered(j.disk.files, j.disk.original, j.disk.layout)
    ensures NotedSince(old(j.s), old(NotesOf(j.disk)),
                       Notes(old(Stopped(j.disk, work.untilUndone)), j.disk.firstTree, h.touched))
    ensures j.s == old(j.s).(phase := j.s.phase, recovery := j.s.recovery)
    ensures j.disk.saved.value.fence in {old(j.disk.saved).value.fence, j.s.fence}
  {
    hide Inv, JournalOk, Recovered, PutBackExactly, TreeReturned, Acts;
    var ignored := j.Save();
    ok, h := j.RestoreTransaction(owner, work);
  }

  method ReportApplied(j: HostJournal) returns (ok: bool)
    requires j.Synced() && j.s.phase.Mutating? && j.disk.files == Target(j.disk.layout, j.disk.plan, j.disk.original)
    modifies j`s, j.disk`up, j.disk`saved, j.disk`history, j.disk`issued, j.disk`sent, j.disk`settled
    modifies j.disk`copies, j.disk`upgrades, j.disk`archives
    ensures Inv(j.disk)
    ensures j.disk.up ==> old(j.disk.up)
    ensures UpgradesKept(j.disk) && CarriedOn(j.disk)
  {
    hide Inv, JournalOk;
    var delivered: bool := *;
    MutationEnds(j.disk, j.s);
    j.s := j.s.(phase := LocalApplied);
    ok := j.Save();
    if !ok { return; }
    ok := j.Report(ReportLocalApplied);
    if !ok { return; }
    ok := j.FinishHost(delivered);
  }

  /** `resume` and, with `restore`, its recovery form: everything starts from the durable journal.
      An undone transaction hands the tree `h` back to the original service. */
  method Resume(d: Disk, restore: bool, owner: int, work: Work) returns (ok: bool, ghost h: Handover)
    requires Inv(d)
    modifies d`up, d`files, d`tree, d`nextInode, d`copies, d`upgrades
    modifies d`saved, d`history, d`issued, d`sent, d`settled, d`archives, d`firstTree, d`touched
    ensures Inv(d)
    ensures d.up ==> old(d.up)
    ensures old(d.saved).None? ==> Untouched(d) && !ok
    ensures old(d.saved).Some? ==> CarriedOn(d)
    ensures UpgradesKept(d) && (d.saved.Some? ==> d.upgrades == old(d.upgrades))
    ensures old(d.saved).Some? && d.saved.Some? ==> d.saved.value.fence == old(d.saved).value.fence
    ensures old(d.saved).Some? && !Unrecorded(old(d.saved).value) ==> d.firstTree == old(d.firstTree)
    ensures ok && (restore || !old(d.saved).value.phase.LocalApplied?) ==> d.saved == None
    ensures old(d.saved).Some? && d.saved.None? ==>
              if Finishes(old(d.saved).value.phase, restore) then d.files == Target(d.layout, d.plan, d.original)
              else Recovered(d.files, d.original, d.layout)
    ensures old(d.saved).Some? && d.saved.None? && Finishes(old(d.saved).value.phase, restore) ==>
              SevenPaths(d.layout) ==> Installed(d.files, d.original, d.layout, d.plan)
    ensures ok && Undoes(old(d.saved).value.phase, restore) ==> ReturnedWith(d, old(d.saved).value, h, work.asOriginal)
    ensures ok && Undoes(old(d.saved).value.phase, restore) ==>
              NotedSince(old(d.saved).value, old(NotesOf(d)),
                         Notes(old(Stopped(d, work.untilUndone)), d.firstTree, h.touched))
  {
    hide Inv, JournalOk, Recovered, TreeReturned, Acts, Target, Installed, SevenPaths;
    h := Handover(d.tree, d.nextInode, d.touched);
    ok := d.Ask();
    if !ok || d.saved.None? { return false, h; }
    ReadBack(d);
    var j := new HostJournal(d, d.saved.value);
    if j.s.phase.Completed? || j.s.phase.Unclaimed? {
      FinishedFiles(d, j.s);
      ok := j.ArchiveJournal();
    } else {
      ok, h := Continue(j, restore, owner, work);
    }
    if SevenPaths(d.layout) { TargetInstalls(d.original, d.layout, d.plan); }
  }

  /** The command carries the transaction through to its target. */
  predicate Finishes(p: Phase, restore: bool) {
    p.Completed? || (p.LocalApplied? && !restore)
  }

  /** The command has a started mutation to undo. */
  predicate Undoes(p: Phase, restore: bool) {
    p.Mutating? || p.Restoring? || (p.LocalApplied? && restore)
  }

  /** The original service was started on the tree `h`, which had everything back that was recorded
      when the command began or by its own fence, and has been at work on it since. */
  ghost predicate ReturnedWith(d: Disk, before: Journal, h: Handover, daemon: Daemon)
    reads d`tree, d`nextInode, d`firstTree, d`touched, d`archives
  {
    && d.archives != [] && Reworked(d.archives[|d.archives| - 1].journal, before)
    && TreeReturned(before.ownership, before.fence, h.tree, d.firstTree, h.touched, d.roots)
    && (d.tree, d.nextInode) == Acts(daemon, h.tree, h.nextInode, d.roots)
    && d.touched == h.touched + Differences(h.tree, d.tree)
  }

  /** Undoing keeps the backups, the fence and the first recorded owners. */
  predicate Reworked(s: Journal, before: Journal) {
    s == before.(phase := s.phase, recovery := s.recovery, receipt := s.receipt, superseded := s.superseded)
  }

  /** Authentication, then one of: nothing was claimed, undo, or finish. */
  method Continue(j: HostJournal, restore: bool, owner: int, work: Work) returns (ok: bool, ghost h: Handover)
    requires j.Synced() && !j.s.phase.Completed? && !j.s.phase.Unclaimed?
    modifies j`s, j.disk`up, j.disk`files, j.disk`tree, j.disk`nextInode, j.disk`copies, j.disk`upgrades
    modifies j.disk`saved, j.disk`history, j.disk`issued, j.disk`sent, j.disk`settled, j.disk`archives
    modifies j.disk`firstTree, j.disk`touched
    ensures Inv(j.disk)
    ensures j.disk.up ==> old(j.disk.up)
    ensures CarriedOn(j.disk)
    ensures UpgradesKept(j.disk) && (j.disk.saved.Some? ==> j.disk.upgrades == old(j.disk.upgrades))
    ensures j.disk.saved.Some? ==> j.disk.saved.value.fence == old(j.s).fence
    ensures !Unrecorded(old(j.s)) ==> j.disk.firstTree == old(j.disk.firstTree)
    ensures ok && (restore || !old(j.s).phase.LocalApplied?) ==> j.disk.saved == None
    ensures j.disk.saved == None ==>
              if Finishes(old(j.s).phase, restore)
              then j.disk.files == Target(j.disk.layout, j.disk.plan, j.disk.original)
              else Recovered(j.disk.files, j.disk.original, j.disk.layout)
    ensures ok && Undoes(old(j.s).phase, restore) ==> ReturnedWith(j.disk, old(j.s), h, work.asOriginal)
    ensures ok && Undoes(old(j.s).phase, restore) ==>
              NotedSince(old(j.s), old(NotesOf(j.disk)),
                         Notes(old(Stopped(j.disk, work.untilUndone)), j.disk.firstTree, h.touched))
  {
    hide Inv, JournalOk, Recovered, ReturnedWith, Acts, Target, NotedSince;
    h := Handover(j.disk.tree, j.disk.nextInode, j.disk.touched);
    ok := j.disk.Ask();
    if !ok { return; }
    if j.s.phase.Claiming? && !j.s.operation && j.s.backups == [] && j.s.ownership == [] {
      var unknown: bool := *;
      ok := j.disk.Ask();
      if !ok { return; }
      if unknown {
        ok := Abandon(j);
        return;
      }
    }
    if restore || !j.s.phase.LocalApplied? {
      ok, h := Recover(j, owner, work);
    } else {
      ok := Finish(j);
    }
  }

  /** The panel never heard of the claim, and nothing has been changed for it. */
  method Abandon(j: HostJournal) returns (ok: bool)
    requires j.Synced() && j.s.phase.Claiming?
    modifies j`s, j.disk`up, j.disk`saved, j.disk`history, j.disk`issued
    modifies j.disk`copies, j.disk`upgrades, j.disk`archives
    ensures Inv(j.disk)
    ensures j.disk.up ==> old(j.disk.up)
    ensures CarriedOn(j.disk)
    ensures UpgradesKept(j.disk) && (j.disk.saved.Some? ==> j.disk.upgrades == old(j.disk.upgrades))
    ensures j.disk.saved.Some? ==> j.disk.saved.value.fence == old(j.s).fence
    ensures ok ==> j.disk.saved == None
    ensures Recovered(j.disk.files, j.disk.original, j.disk.layout)
  {
    hide Inv, JournalOk, Recovered;
    NothingChangedYet(j.disk, j.s);
    UnchangedIsRecovered(j.disk.files, j.disk.layout);
    j.s := j.s.(phase := Unclaimed);
    ok := j.Save();
    if !ok { return; }
    ok := j.ArchiveJournal();
  }

  method Recover(j: HostJournal, owner: int, work: Work) returns (ok: bool, ghost h: Handover)
    requires j.Synced() && !j.s.phase.Completed? && !j.s.phase.Unclaimed?
    modifies j`s, j.disk`up, j.disk`files, j.disk`tree, j.disk`nextInode, j.disk`copies, j.disk`upgrades
    modifies j.disk`saved, j.disk`history, j.disk`issued, j.disk`sent, j.disk`settled, j.disk`archives
    modifies j.disk`firstTree, j.disk`touched
    ensures Inv(j.disk)
    ensures j.disk.up ==> old(j.disk.up)
    ensures CarriedOn(j.disk)
    ensures UpgradesKept(j.disk) && (j.disk.saved.Some? ==> j.disk.upgrades == old(j.disk.upgrades))
    ensures j.disk.saved.Some? ==> j.disk.saved.value.fence == old(j.s).fence
    ensures !Unrecorded(old(j.s)) ==> j.disk.firstTree == old(j.disk.firstTree)
    ensures ok ==> j.disk.saved == None
    ensures j.disk.saved.None? ==> Recovered(j.disk.files, j.disk.original, j.disk.layout)
    ensures ok && Undoes(old(j.s).phase, true) ==> ReturnedWith(j.disk, old(j.s), h, work.asOriginal)
    ensures Undoes(old(j.s).phase, true) ==>
              NotedSince(old(j.s), old(NotesOf(j.disk)),
                         Notes(old(Stopped(j.disk, work.untilUndone)), j.disk.firstTree, h.touched))
  {
    hide Inv, JournalOk, EndsArchived, Recovered, TreeReturned, Acts, NotedSince, Differences, Follows,
         Unrecorded;
    ok, h := RestoreLocally(j, owner, work);
    if !ok { return; }
    ok := j.disk.Ask();
    if !ok { return; }
    ok := ReportAndArchive(j);
  }

  /** Restoration needs no panel: before the mutating marker there is nothing to undo. */
  method RestoreLocally(j: HostJournal, owner: int, work: Work) returns (ok: bool, ghost h: Handover)
    requires j.Synced() && !j.s.phase.Completed? && !j.s.phase.Unclaimed?
    modifies j`s, j.disk`up, j.disk`files, j.disk`tree, j.disk`nextInode
    modifies j.disk`saved, j.disk`history, j.disk`issued, j.disk`firstTree, j.disk`touched
    ensures Sound(j.disk, j.s)
    ensures j.disk.up ==> old(j.disk.up)
    ensures old(j.disk.history) <= j.disk.history
    ensures j.disk.saved.value.fence == j.s.fence
    ensures j.s == old(j.s).(phase := j.s.phase, recovery := j.s.recovery)
    ensures !Unrecorded(old(j.s)) ==> j.disk.firstTree == old(j.disk.firstTree)
    ensures ok ==> j.disk.up && j.Synced() && j.s.phase.Restored?
    ensures ok ==> Recovered(j.disk.files, j.disk.original, j.disk.layout)
    ensures ok && Undoes(old(j.s).phase, true) ==> j.Returned(h, work.asOriginal)
    ensures Undoes(old(j.s).phase, true) ==>
              NotedSince(old(j.s), old(NotesOf(j.disk)),
                         Notes(old(Stopped(j.disk, work.untilUndone)), j.disk.firstTree, h.touched))
  {
    hide Inv, JournalOk, Recovered, TreeReturned, Acts, PutBackExactly;
    h := Handover(j.disk.tree, j.disk.nextInode, j.disk.touched);
    if j.s.phase.Claiming? || j.s.phase.Prepared? {
      NothingChangedYet(j.disk, j.s);
      j.s := j.s.(phase := Restored);
      ok := j.Save();
    } else if !j.s.phase.Restored? {
      ok, h := j.RestoreTransaction(owner, work);
    } else {
      ok := j.disk.up;
    }
    if ok { AlreadyRestored(j.disk, j.s); }
  }

  method ReportAndArchive(j: HostJournal) returns (ok: bool)
    requires j.Synced() && j.s.phase.Restored?
    modifies j`s, j.disk`up, j.disk`saved, j.disk`history, j.disk`issued, j.disk`sent, j.disk`settled
    modifies j.disk`copies, j.disk`upgrades, j.disk`archives
    ensures Inv(j.disk)
    ensures j.disk.up ==> old(j.disk.up)
    ensures CarriedOn(j.disk)
    ensures ok ==> j.disk.saved == None
    ensures j.disk.upgrades == if j.disk.saved.Some? then old(j.disk.upgrades) else []
    ensures j.s == old(j.s).(receipt := j.s.receipt, superseded := j.s.superseded)
    ensures j.disk.saved.Some? ==> j.disk.saved.value.fence == j.s.fence
    ensures j.disk.saved.None? ==> j.disk.archives[|j.disk.archives| - 1].journal == j.s
  {
    hide Inv, JournalOk;
    ok := j.ReportRestoration();
    if !ok { return; }
    ok := j.ArchiveJournal();
  }

  /** The target is applied locally; the panel and the daemon decide whether it completes. */
  method Finish(j: HostJournal) returns (ok: bool)
    requires j.Synced() && j.s.phase.LocalApplied?
    modifies j`s, j.disk`up, j.disk`saved, j.disk`history, j.disk`issued, j.disk`sent, j.disk`settled
    modifies j.disk`copies, j.disk`upgrades, j.disk`archives
    ensures Inv(j.disk)
    ensures j.disk.up ==> old(j.disk.up)
    ensures CarriedOn(j.disk)
    ensures UpgradesKept(j.disk) && (j.disk.saved.Some? ==> j.disk.upgrades == old(j.disk.upgrades))
    ensures j.disk.saved.Some? ==> j.disk.saved.value.fence == old(j.s).fence
    ensures j.disk.saved.None? ==> j.disk.files == Target(j.disk.layout, j.disk.plan, j.disk.original)
  {
    hide Inv, JournalOk, Target;
    ok := j.disk.Ask();
    if !ok { return; }
    var delivered: bool := *;
    var alreadyApplied: bool := *;
    if alreadyApplied {
      ok := DropReceipt(j);
      if !ok { return; }
      ok := j.FinishHost(delivered);
      return;
    }
    ok := j.disk.Ask();
    if !ok { return; }
    var beyond: bool := *;
    if !beyond {
      ok := j.Report(ReportLocalApplied);
      if !ok { return; }
    }
    ok := j.FinishHost(delivered);
  }

  /** The panel already stands at the reported phase: the receipt is settled. */
  method DropReceipt(j: HostJournal) returns (ok: bool)
    requires j.Synced()
    modifies j`s, j.disk`up, j.disk`saved, j.disk`history, j.disk`issued, j.disk`settled
    ensures Sound(j.disk, j.s) && j.s == old(j.s).(receipt := None)
    ensures j.disk.up ==> old(j.disk.up)
    ensures old(j.disk.history) <= j.disk.history
    ensures j.disk.settled == old(j.disk.settled) + ReceiptIds(old(j.s))
    ensures j.disk.saved == old(j.disk.saved) || j.disk.saved == Some(j.s)
    ensures ok ==> j.disk.up && j.Synced()
  {
    hide Inv, JournalOk;
    DurableReceipt(j.disk, j.s);
    j.disk.settled := j.disk.settled + ReceiptIds(j.s);
    PanelActed(j.disk, j.s);
    if j.s.receipt.Some? {
      ReceiptSettled(j.disk, j.s);
      j.s := j.s.(receipt := None);
    }
    ok := j.Save();
  }
}
