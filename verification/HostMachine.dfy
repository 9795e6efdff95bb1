/** Every run of the host commands on one installation: any order, any fates, a crash or an
    end of the process after each, the daemon at work in between. */
module HostMachine {
  import opened Options
  import opened HostDisk
  import opened StateTree
  import opened UpgradeState
  import opened HostTransaction
  import opened UpgradeCommand
  import opened HostCommands
  import SoftwareUpgrade

  datatype Command =
    | DoApply(plan: Plan, owner: int, previousHelper: bool, work: Work)
    | DoResume(restore: bool, owner: int, work: Work)
    | DoUpgrade(release: Release, rewrite: (Bytes, string) -> Bytes, fates: SoftwareUpgrade.Fates)
    | DoUpdate(agent: Bytes, helperInstalled: bool)
    | DaemonWorks(daemon: Daemon)
    | AdministratorEdits(files: map<Path, File>)

  /** What the two journals promise together at every crash point of every run. */
  ghost predicate Safe(d: Disk)
    reads d
  {
    Inv(d) && Chain(d.upgrades, d.base) && FourPaths(d.layout)
  }

  /** There is never an unfinished upgrade beside a transaction journal, and never two
      unfinished upgrades. */
  lemma JournalsExclude(d: Disk, i: nat, j: nat)
    requires Safe(d) && i < |d.upgrades| && j < |d.upgrades| && Unfinished(d.upgrades[i])
    ensures d.saved == None
    ensures Unfinished(d.upgrades[j]) ==> i == j
  {
  }

  /** What a durable phase says about the installed files, at any crash point of any run. */
  lemma PhasesMean(d: Disk)
    requires Safe(d) && d.saved.Some?
    ensures d.saved.value.phase in {Claiming, Prepared, Unclaimed} ==> d.files == d.original
    ensures d.saved.value.phase in {LocalApplied, Completed} ==> d.files == Target(d.layout, d.plan, d.original)
    ensures d.saved.value.phase in {LocalApplied, Completed} && SevenPaths(d.layout) ==>
              Installed(d.files, d.original, d.layout, d.plan)
    ensures d.saved.value.phase.Restored? ==> Recovered(d.files, d.original, d.layout)
    ensures OnlyProtectedChanged(d.files, d.original, d.layout)
  {
    TargetTouchesOnlyProtected(d.layout, d.plan, d.original);
    if SevenPaths(d.layout) { TargetInstalls(d.original, d.layout, d.plan); }
  }

  method Install(layout: Layout, roots: seq<Path>, files: map<Path, File>, tree: Tree, nextInode: nat, ghost plan: Plan)
    returns (d: Disk)
    requires FourPaths(layout) && WellFormed(tree, roots) && forall p :: p in tree ==> tree[p].inode < nextInode
    ensures fresh(d) && Safe(d) && d.files == files && d.tree == tree
  {
    d := new Disk(layout, roots, files, tree, nextInode, plan);
  }

  /** `update`: the Agent binary alone, refused while either journal is in progress and where the
      policy says that the rescue helper is installed. */
  method Update(d: Disk, agent: Bytes, helperInstalled: bool) returns (ok: bool)
    requires Safe(d)
    modifies d`up, d`files
    ensures Safe(d)
    ensures d.up ==> old(d.up)
    ensures d.saved.Some? || !Idle(d.upgrades) || helperInstalled ==> d.files == old(d.files) && !ok
    ensures d.files - {d.layout.executable} == old(d.files) - {d.layout.executable}
    ensures ok ==> d.files == old(d.files)[d.layout.executable := File(agent, 0x1ED, 0, 0)]
  {
    hide Inv, Chain;
    ok := d.Ask();
    if !ok || d.saved.Some? { return false; }
    var pending := PendingSoftwareUpgrade(d);
    if !pending.NonePending? || helperInstalled { return false; }
    ok := d.Ask();
    if !ok || d.layout.executable !in d.files || !(ELF <= agent) { return false; }
    ok := ReplaceAgent(d, agent);
  }

  /** Puts the previous binary back if the new one could not be published or recorded. */
  method ReplaceAgent(d: Disk, agent: Bytes) returns (ok: bool)
    requires Safe(d) && d.saved == None && d.layout.executable in d.files
    modifies d`up, d`files
    ensures Safe(d)
    ensures d.up ==> old(d.up)
    ensures d.files - {d.layout.executable} == old(d.files) - {d.layout.executable}
    ensures ok ==> d.files == old(d.files)[d.layout.executable := File(agent, 0x1ED, 0, 0)]
  {
    hide Safe;
    var previous := d.files[d.layout.executable].bytes;
    var fate: Fate := *;
    ok := d.AtomicWrite(d.layout.executable, File(agent, 0x1ED, 0, 0), fate);
    if ok { ok := d.Ask(); }
    if !ok {
      fate := *;
      var ignored := d.AtomicWrite(d.layout.executable, File(previous, 0x1ED, 0, 0), fate);
    }
    FilesEdited(d);
  }

  /** Without a transaction journal nothing on record depends on the files. */
  twostate lemma FilesEdited(d: Disk)
    requires old(Safe(d)) && d.saved == None
    requires FilesKeptButFiles(d) && JournalKept(d) && TreeKept(d) && d.base == old(d.base)
    ensures Safe(d)
  {
  }

  twostate predicate FilesKeptButFiles(d: Disk)
    reads d
  {
    && d.copies == old(d.copies) && d.upgrades == old(d.upgrades) && d.original == old(d.original)
    && d.plan == old(d.plan) && d.archives == old(d.archives)
  }

  /** The daemon acts while no command holds its service stopped. */
  method DaemonAlone(d: Disk, daemon: Daemon)
    requires Safe(d)
    modifies d`tree, d`nextInode, d`touched
    ensures Safe(d)
    ensures (d.tree, d.nextInode) == Acts(daemon, old(d.tree), old(d.nextInode), d.roots)
    ensures d.touched == old(d.touched) + Differences(old(d.tree), d.tree)
  {
    LetAct(d, daemon);
    DaemonMoved(d, daemon);
  }

  twostate lemma DaemonMoved(d: Disk, new daemon: Daemon)
    requires old(Safe(d))
    requires FilesKept(d) && JournalKept(d) && d.firstTree == old(d.firstTree) && d.base == old(d.base)
    requires (d.tree, d.nextInode) == Acts(daemon, old(d.tree), old(d.nextInode), d.roots)
    requires d.touched == old(d.touched) + Differences(old(d.tree), d.tree)
    ensures Safe(d)
  {
    if d.saved.Some? { DaemonActed(d, d.saved.value, daemon); }
  }

  // ---- one command -----------------------------------------------------------------------

  /** What every command does with an open transaction: it carries it on, and once anything of the
      tree is recorded the tree to give back stays the same. */
  twostate predicate KeepsTransaction(d: Disk)
    reads d
  {
    old(d.saved).Some? ==>
      && CarriedOn(d)
      && (d.saved.Some? ==> d.saved.value.fence == old(d.saved).value.fence)
      && (!Unrecorded(old(d.saved).value) ==> d.firstTree == old(d.firstTree))
  }

  /** A transaction that began over `files` still stands over them, or has ended all or nothing. */
  ghost predicate StandsOver(d: Disk, files: Files, plan: Plan)
    reads d`saved, d`files, d`original, d`plan
  {
    if d.saved.Some? then d.original == files && d.plan == plan
    else Recovered(d.files, files, d.layout) || d.files == Target(d.layout, plan, files)
  }

  /** If the fence is complete, `tree` is what will be given back. */
  ghost predicate FenceAt(d: Disk, tree: Tree)
    reads d`saved, d`firstTree
  {
    d.saved.Some? && d.saved.value.fence.Profile? ==> d.firstTree == tree
  }

  /** A new transaction stands over what it found. */
  twostate predicate StartsTransaction(d: Disk, command: Command)
    reads d
  {
    old(d.saved).None? && command.DoApply? ==>
      && StandsOver(d, old(d.files), command.plan)
      && FenceAt(d, old(Stopped(d, command.work.untilStopped)))
  }

  ghost predicate SettledBy(d: Disk, command: Command)
    reads d`files, d`base
  {
    && command.DoUpgrade? && |d.base| == 4
    && Settled(d.files, d.layout, d.base, command.release,
               command.rewrite(d.base[3].bytes, command.release.version), command.fates)
  }

  /** The base of a pending upgrade is what its first attempt found, and only an upgrade that
      settles ends it. */
  twostate predicate KeepsUpgrade(d: Disk, command: Command)
    reads d
  {
    && (!Idle(old(d.upgrades)) ==> d.base == old(d.base))
    && (d.base == old(d.base) || InstallationOf(d.base, old(d.files), d.layout))
    && (Idle(old(d.upgrades)) && !Idle(d.upgrades) ==> InstallationOf(d.base, old(d.files), d.layout))
    && (!Idle(old(d.upgrades)) && Idle(d.upgrades) ==> SettledBy(d, command))
    && (Idle(old(d.upgrades)) && Idle(d.upgrades) && command.DoUpgrade? && d.files != old(d.files) ==>
          InstallationOf(d.base, old(d.files), d.layout) && SettledBy(d, command))
  }

  method RunApply(d: Disk, command: Command)
    requires Safe(d) && command.DoApply?
    modifies d
    ensures Safe(d) && KeepsTransaction(d) && StartsTransaction(d, command) && KeepsUpgrade(d, command)
  {
    hide Inv, Recovered, Target, Acts, SettledBy, InstallationOf, FourPaths;
    var ok := Apply(d, command.plan, command.owner, command.previousHelper, command.work);
  }

  method RunResume(d: Disk, command: Command)
    requires Safe(d) && command.DoResume?
    modifies d
    ensures Safe(d) && KeepsTransaction(d) && KeepsUpgrade(d, command)
  {
    hide Recovered, Target, Acts, SettledBy, InstallationOf, FourPaths, JournalOk, WellFormed, ArchiveOk, NotedSince;
    var ok; ghost var h;
    ok, h := Resume(d, command.restore, command.owner, command.work);
  }

  method RunUpgrade(d: Disk, command: Command)
    requires Safe(d) && command.DoUpgrade?
    modifies d`up, d`files, d`upgrades, d`base
    ensures Safe(d) && KeepsTransaction(d) && KeepsUpgrade(d, command)
  {
    hide Inv, Chain, Settled, InstallationOf, FourPaths;
    var ok := UpgradeInstalledRescue(d, command.release, command.rewrite, command.fates);
  }

  /** The other commands leave the journals alone. */
  method RunOther(d: Disk, command: Command)
    requires Safe(d) && !command.DoApply? && !command.DoResume? && !command.DoUpgrade?
    modifies d`up, d`files, d`tree, d`nextInode, d`touched
    ensures Safe(d) && KeepsTransaction(d) && KeepsUpgrade(d, command)
  {
    hide Safe, InstallationOf, SettledBy, Acts;
    match command
    case DoUpdate(agent, helperInstalled) =>
      var ok := Update(d, agent, helperInstalled);
    case DaemonWorks(daemon) =>
      DaemonAlone(d, daemon);
    case AdministratorEdits(files) =>
      if d.saved.None? { Edit(d, files); }
  }

  /** A new process runs one command. */
  method Execute(d: Disk, command: Command)
    requires Safe(d)
    modifies d
    ensures Safe(d) && KeepsTransaction(d) && StartsTransaction(d, command) && KeepsUpgrade(d, command)
  {
    hide Safe, EndsArchived, StandsOver, FenceAt, Acts, InstallationOf, SettledBy, Idle;
    Rebooted(d);
    if command.DoApply? {
      RunApply(d, command);
    } else if command.DoResume? {
      RunResume(d, command);
    } else if command.DoUpgrade? {
      RunUpgrade(d, command);
    } else {
      RunOther(d, command);
    }
  }

  method Rebooted(d: Disk)
    requires Safe(d)
    modifies d`up
    ensures Safe(d) && d.up
  {
    d.up := true;
  }

  /** Between transactions the administrator may change any file. */
  method Edit(d: Disk, files: map<Path, File>)
    requires Safe(d) && d.saved == None
    modifies d`files
    ensures Safe(d) && d.files == files
  {
    hide Safe;
    d.files := files;
    FilesEdited(d);
  }

  // ---- whole runs ------------------------------------------------------------------------

  method Run(d: Disk, commands: seq<Command>)
    requires Safe(d)
    modifies d
    ensures Safe(d)
  {
    hide *;
    for i := 0 to |commands|
      invariant Safe(d)
    {
      Execute(d, commands[i]);
    }
  }

  /** An open transaction that was being undone still is, or has been; and any transaction that is
      closed ends all or nothing. */
  twostate lemma EndsWhole(d: Disk)
    requires old(Safe(d)) && Safe(d) && old(d.saved).Some? && KeepsTransaction(d)
    ensures Undoing(old(d.saved).value.phase) ==>
              if d.saved.Some? then Undoing(d.saved.value.phase) else Recovered(d.files, d.original, d.layout)
    ensures d.saved.None? ==>
              || Recovered(d.files, d.original, d.layout)
              || d.files == Target(d.layout, d.plan, d.original)
  {
    hide Recovered, Target, Chain, JournalOk;
    if Undoing(old(d.saved).value.phase) {
      assert d.history[|old(d.history)| - 1] == old(d.history)[|old(d.history)| - 1];
      RestorationIsFinal(d.history, |old(d.history)| - 1, |d.history| - 1);
    }
    if d.saved.None? {
      var a := d.archives[|d.archives| - 1];
      assert ArchiveOk(a, d.layout);
      UnchangedIsRecovered(d.files, d.layout);
    }
  }

  /** A transaction from its beginning.  Whatever commands follow, each cut by any failures or a
      crash: as long as its journal is open it stands over the files that it found, and when the
      journal is closed they are all back or all the target's. */
  method AllOrNothing(d: Disk, first: Command, commands: seq<Command>) returns (n: nat)
    requires Safe(d) && d.saved == None && first.DoApply?
    modifies d
    ensures Safe(d) && n <= |commands| && (d.saved.Some? ==> n == |commands|)
    ensures StandsOver(d, old(d.files), first.plan)
    ensures d.saved.None? && SevenPaths(d.layout) ==>
              Recovered(d.files, old(d.files), d.layout) || Installed(d.files, old(d.files), d.layout, first.plan)
    ensures FenceAt(d, old(Stopped(d, first.work.untilStopped)))
  {
    hide Safe, Recovered, Target, Acts, Installed, SevenPaths;
    Execute(d, first);
    n := 0;
    while n < |commands| && d.saved.Some?
      invariant n <= |commands| && Safe(d)
      invariant StandsOver(d, old(d.files), first.plan)
      invariant FenceAt(d, old(Stopped(d, first.work.untilStopped)))
    {
      label Before:
      Execute(d, commands[n]);
      EndsWhole@Before(d);
      n := n + 1;
    }
    if SevenPaths(d.layout) { TargetInstalls(old(d.files), d.layout, first.plan); }
  }

  /** Once restoring is durable, the transaction is never applied or completed: whatever commands
      follow, it is being undone until its journal is closed over the original files. */
  method UndoneForever(d: Disk, commands: seq<Command>) returns (n: nat)
    requires Safe(d) && d.saved.Some? && Undoing(d.saved.value.phase)
    modifies d
    ensures Safe(d) && n <= |commands| && (d.saved.Some? ==> n == |commands|)
    ensures d.saved.Some? ==> Undoing(d.saved.value.phase) && d.original == old(d.original)
    ensures d.saved.None? ==> Recovered(d.files, old(d.original), d.layout)
  {
    hide Safe, Recovered, Target, Unrecorded;
    n := 0;
    while n < |commands| && d.saved.Some?
      invariant n <= |commands| && Safe(d) && d.original == old(d.original)
      invariant d.saved.Some? ==> Undoing(d.saved.value.phase)
      invariant d.saved.None? ==> Recovered(d.files, old(d.original), d.layout)
    {
      label Before:
      Execute(d, commands[n]);
      EndsWhole@Before(d);
      n := n + 1;
    }
  }

  /** Every node of the tree that was fenced has its owner and bits again, and every other follows
      a state root. */
  ghost predicate WholeTreeReturned(tree: Tree, first: Tree, roots: seq<Path>) {
    forall p :: p in tree ==> if p in first then SameOwner(tree[p], first[p]) else FollowsRoot(p, tree[p], first, roots)
  }

  /** A transaction from its beginning to its restoration, with any commands in between: where its
      fence was complete, a restoration that succeeds gives back the files from before it and every
      owner in the tree as the daemon left it when it was stopped, and starts the daemon on that. */
  method UndoneCompletely(d: Disk, first: Command, commands: seq<Command>, last: Command)
    returns (ok: bool, ghost h: Handover)
    requires Safe(d) && d.saved == None && first.DoApply? && last.DoResume?
    modifies d
    ensures Safe(d)
    ensures ok ==> d.saved == None && Recovered(d.files, old(d.files), d.layout)
    ensures ok ==> WholeTreeReturned(
                     h.tree, old(Stopped(d, first.work.untilStopped)), d.roots)
    ensures ok ==> (d.tree, d.nextInode) == Acts(last.work.asOriginal, h.tree, h.nextInode, d.roots)
  {
    hide Safe, Acts, Recovered, Target, SameOwner, FollowsRoot, NotedSince;
    h := Handover(d.tree, d.nextInode, d.touched);
    var n := AllOrNothing(d, first, commands);
    if d.saved.None? || !d.saved.value.fence.Profile? || !Undoes(d.saved.value.phase, true) { return false, h; }
    ok, h := ResumeSafely(d, last);
  }

  method ResumeSafely(d: Disk, command: Command) returns (ok: bool, ghost h: Handover)
    requires Safe(d) && command.DoResume? && d.saved.Some? && Undoes(d.saved.value.phase, true)
    requires d.saved.value.fence.Profile?
    modifies d
    ensures Safe(d)
    ensures ok ==> d.saved == None && Recovered(d.files, old(d.original), d.layout)
    ensures ok ==> WholeTreeReturned(h.tree, old(d.firstTree), d.roots)
    ensures ok ==> (d.tree, d.nextInode) == Acts(command.work.asOriginal, h.tree, h.nextInode, d.roots)
  {
    hide Recovered, Target, Acts, JournalOk, WellFormed, ArchiveOk, NotedSince, SameOwner, FollowsRoot, FourPaths;
    Rebooted(d);
    ok, h := Resume(d, true, command.owner, command.work);
  }

  /** An upgrade from its first attempt.  Whatever commands follow, its backups are the files from
      before that attempt until it is over, and then they are one release or those files again,
      unless the last attempt undid its own completion. */
  method UpgradeToTheEnd(d: Disk, first: Command, commands: seq<Command>) returns (n: nat)
    requires Safe(d) && Idle(d.upgrades) && first.DoUpgrade?
    modifies d
    ensures Safe(d) && n <= |commands| && (!Idle(d.upgrades) ==> n == |commands|)
    ensures n > 0 || !Idle(d.upgrades) || d.files != old(d.files) ==> InstallationOf(d.base, old(d.files), d.layout)
    ensures Idle(d.upgrades) && n > 0 ==> SettledBy(d, commands[n - 1])
    ensures Idle(d.upgrades) && n == 0 && d.files != old(d.files) ==> SettledBy(d, first)
  {
    hide Safe, InstallationOf, Settled, Idle;
    Execute(d, first);
    n := 0;
    while n < |commands| && !Idle(d.upgrades)
      invariant n <= |commands| && Safe(d)
      invariant n > 0 || !Idle(d.upgrades) || d.files != old(d.files) ==> InstallationOf(d.base, old(d.files), d.layout)
      invariant Idle(d.upgrades) && n > 0 ==> SettledBy(d, commands[n - 1])
      invariant Idle(d.upgrades) && n == 0 && d.files != old(d.files) ==> SettledBy(d, first)
    {
      Execute(d, commands[n]);
      n := n + 1;
    }
  }
}
