/** The host transaction journal: an undo log over seven protected files and the daemon's
    state tree.  Every command is cut by crashes and failures at any operation. */
module HostTransaction {
  import opened Options
  import opened HostDisk
  import opened StateTree
  import opened UpgradeState

  type Files = map<Path, File>

  // ---- phases -------------------------------------------------------------------------

  predicate Follows(a: Phase, b: Phase) {
    || a == b
    || (a.Claiming? && (b.Prepared? || b.Unclaimed? || b.Restored?))
    || (a.Prepared? && (b.Mutating? || b.Restored?))
    || (a.Mutating? && (b.LocalApplied? || b.Restoring?))
    || (a.LocalApplied? && (b.Completed? || b.Restoring?))
    || (a.Restoring? && b.Restored?)
  }

  ghost predicate Lawful(history: seq<Phase>) {
    forall i :: 0 <= i < |history| - 1 ==> Follows(history[i], history[i + 1])
  }

  predicate Undoing(p: Phase) { p.Restoring? || p.Restored? }

  /** Once restoration is durable, no later durable phase of the journal is anything else. */
  lemma {:induction false} RestorationIsFinal(history: seq<Phase>, i: nat, j: nat)
    requires Lawful(history) && i <= j < |history|
    requires Undoing(history[i])
    ensures Undoing(history[j])
    decreases j - i
  {
    if i < j {
      assert Follows(history[i], history[i + 1]);
      RestorationIsFinal(history, i + 1, j);
    }
  }

  // ---- the seven files ----------------------------------------------------------------

  function InstallHelper(files: Files, l: Layout, h: HelperFiles): Files {
    files[l.helperBinary := h.binary][l.helperConfig := h.config][l.helperUnit := h.unit]
  }

  /** The helper is removed only when its unit exists. */
  function WithoutHelper(files: Files, l: Layout): Files {
    if l.helperUnit in files then files - {l.helperUnit, l.helperBinary, l.helperConfig} else files
  }

  /** The protected files of a completed transaction, as a function of the original ones. */
  function Target(l: Layout, plan: Plan, original: Files): Files {
    var profiled := original[l.policy := plan.policy][l.bootstrap := plan.bootstrap][l.profile := plan.profile];
    var helped :=
      if plan.rescueEnabled && plan.helper.Some? then InstallHelper(profiled, l, plan.helper.value)
      else if !plan.rescueEnabled then WithoutHelper(profiled, l)
      else profiled;
    var readable :=
      if plan.nonRoot && l.bootstrap in helped
      then helped[l.bootstrap := helped[l.bootstrap].(uid := 0, gid := plan.gid, mode := 0x1A0)] else helped;
    readable[l.applied := plan.applied]
  }

  ghost predicate OnlyProtectedChanged(files: Files, original: Files, l: Layout) {
    forall p :: p !in l.Protected() ==> (p in files <==> p in original) && (p in files ==> files[p] == original[p])
  }

  predicate SevenPaths(l: Layout) {
    forall i, j :: 0 <= i < j < 7 ==> l.Protected()[i] != l.Protected()[j]
  }

  ghost predicate Kept(p: Path, files: Files, before: Files) {
    (p in files <==> p in before) && (p in files ==> files[p] == before[p])
  }

  /** The reviewed profile, path by path, but for the applied record. */
  ghost predicate Published(files: Files, before: Files, l: Layout, plan: Plan) {
    && l.policy in files && files[l.policy] == plan.policy
    && l.profile in files && files[l.profile] == plan.profile
    && l.bootstrap in files && files[l.bootstrap].bytes == plan.bootstrap.bytes
    && (if plan.nonRoot
        then files[l.bootstrap].uid == 0 && files[l.bootstrap].gid == plan.gid && files[l.bootstrap].mode == 0x1A0
        else files[l.bootstrap] == plan.bootstrap)
    && (if plan.rescueEnabled && plan.helper.Some? then
          && l.helperBinary in files && files[l.helperBinary] == plan.helper.value.binary
          && l.helperConfig in files && files[l.helperConfig] == plan.helper.value.config
          && l.helperUnit in files && files[l.helperUnit] == plan.helper.value.unit
        else if !plan.rescueEnabled && l.helperUnit in before then
          l.helperBinary !in files && l.helperConfig !in files && l.helperUnit !in files
        else
          && Kept(l.helperBinary, files, before) && Kept(l.helperConfig, files, before)
          && Kept(l.helperUnit, files, before))
  }

  ghost predicate Installed(files: Files, before: Files, l: Layout, plan: Plan) {
    Published(files, before, l, plan) && l.applied in files && files[l.applied] == plan.applied
  }

  /** The target of a transaction is exactly the installation of its plan, with no other file
      touched. */
  lemma TargetExactly(files: Files, original: Files, l: Layout, plan: Plan)
    requires SevenPaths(l)
    ensures files == Target(l, plan, original) <==>
            Installed(files, original, l, plan) && OnlyProtectedChanged(files, original, l)
  {
    SevenApart(l);
    TargetInstalls(original, l, plan);
    TargetTouchesOnlyProtected(l, plan, original);
    if Installed(files, original, l, plan) && OnlyProtectedChanged(files, original, l) {
      OnlyOneInstallation(files, Target(l, plan, original), original, l, plan);
    }
  }

  lemma SevenApart(l: Layout)
    requires SevenPaths(l)
    ensures l.policy !in {l.bootstrap, l.profile, l.applied, l.helperBinary, l.helperConfig, l.helperUnit}
    ensures l.bootstrap !in {l.profile, l.applied, l.helperBinary, l.helperConfig, l.helperUnit}
    ensures l.profile !in {l.applied, l.helperBinary, l.helperConfig, l.helperUnit}
    ensures l.applied !in {l.helperBinary, l.helperConfig, l.helperUnit}
    ensures l.helperBinary !in {l.helperConfig, l.helperUnit} && l.helperConfig != l.helperUnit
  {
    var p := l.Protected();
    assert p[0] == l.profile && p[1] == l.bootstrap && p[2] == l.policy && p[3] == l.applied;
    assert p[4] == l.helperBinary && p[5] == l.helperConfig && p[6] == l.helperUnit;
  }

  lemma TargetInstalls(original: Files, l: Layout, plan: Plan)
    requires SevenPaths(l)
    ensures Installed(Target(l, plan, original), original, l, plan)
  {
    SevenApart(l);
  }

  lemma OnlyOneInstallation(a: Files, b: Files, original: Files, l: Layout, plan: Plan)
    requires Installed(a, original, l, plan) && OnlyProtectedChanged(a, original, l)
    requires Installed(b, original, l, plan) && OnlyProtectedChanged(b, original, l)
    ensures a == b
  {
    hide OnlyProtectedChanged;
    assert Kept(l.policy, a, b) && Kept(l.bootstrap, a, b) && Kept(l.profile, a, b) && Kept(l.applied, a, b);
    assert Kept(l.helperBinary, a, b) && Kept(l.helperConfig, a, b) && Kept(l.helperUnit, a, b);
    SameEverywhere(a, b, original, l);
  }

  lemma SameEverywhere(a: Files, b: Files, original: Files, l: Layout)
    requires OnlyProtectedChanged(a, original, l) && OnlyProtectedChanged(b, original, l)
    requires Kept(l.policy, a, b) && Kept(l.bootstrap, a, b) && Kept(l.profile, a, b) && Kept(l.applied, a, b)
    requires Kept(l.helperBinary, a, b) && Kept(l.helperConfig, a, b) && Kept(l.helperUnit, a, b)
    ensures a == b
  {
    forall p ensures Kept(p, a, b) {
      if p !in l.Protected() { assert Kept(p, a, original) && Kept(p, b, original); }
    }
    assert a.Keys == b.Keys by {
      forall p ensures p in a.Keys <==> p in b.Keys { assert Kept(p, a, b); }
    }
    forall p | p in a ensures a[p] == b[p] { assert Kept(p, a, b); }
  }

  /** Before the applied record is written, the rest of the plan is installed. */
  lemma PublishedFirst(files: Files, original: Files, l: Layout, plan: Plan)
    requires SevenPaths(l) && files[l.applied := plan.applied] == Target(l, plan, original)
    ensures Published(files, original, l, plan)
  {
    SevenApart(l);
    TargetInstalls(original, l, plan);
  }

  /** Each protected file is exactly what its backup can give back. */
  ghost predicate PutBackExactly(files: Files, original: Files, l: Layout) {
    && files.Keys == original.Keys
    && forall p :: p in files ==> files[p] == if p in l.Protected() then Captured(original[p]) else original[p]
  }

  /** Each protected file has its original existence, bytes, owner and permission bits. */
  ghost predicate Recovered(files: Files, original: Files, l: Layout) {
    && files.Keys == original.Keys
    && forall p :: p in files ==> files[p] == original[p] || (p in l.Protected() && files[p] == Captured(original[p]))
  }

  ghost predicate BackedUp(p: Path, backups: seq<FileBackup>) {
    exists b :: b in backups && b.path == p
  }

  /** The b-th backup describes the original file and its copy holds the original bytes. */
  ghost predicate BackupOk(b: FileBackup, i: nat, original: Files, copies: map<nat, Bytes>) {
    && b.copy == i
    && b.existed == (b.path in original)
    && (b.existed ==>
          && b.mode == Perm(original[b.path].mode) && b.uid == original[b.path].uid && b.gid == original[b.path].gid
          && i in copies && copies[i] == original[b.path].bytes)
  }

  ghost predicate BackupsOk(backups: seq<FileBackup>, original: Files, copies: map<nat, Bytes>, l: Layout) {
    && (forall i :: 0 <= i < |backups| ==>
          BackupOk(backups[i], i, original, copies) && backups[i].path in l.Protected())
    && (forall i, j :: 0 <= i < j < |backups| ==> backups[i].path != backups[j].path)
  }

  ghost predicate Complete(backups: seq<FileBackup>, l: Layout) {
    forall p :: p in l.Protected() ==> BackedUp(p, backups)
  }

  /** What a journal phase says about the files it protects. */
  ghost predicate PhaseOk(s: Journal, files: Files, original: Files, l: Layout, plan: Plan) {
    match s.phase
    case Claiming | Prepared | Unclaimed =>
      files == original && s.ownership == [] && s.recovery == [] && s.fence.Unfenced?
    case Mutating | Restoring => Complete(s.backups, l) && OnlyProtectedChanged(files, original, l)
    case LocalApplied | Completed => Complete(s.backups, l) && files == Target(l, plan, original)
    case Restored => Recovered(files, original, l)
  }

  function ReceiptIds(s: Journal): set<nat> {
    if s.receipt.Some? then {s.receipt.value.id} else {}
  }

  function Outstanding(s: Journal): seq<Receipt> {
    if s.receipt.Some? then [s.receipt.value] else []
  }

  /** A receipt that was ever durable is still in the journal, or the panel needs it no more. */
  ghost predicate Accounted(s: Journal, issued: set<nat>, settled: set<nat>) {
    forall id :: id in issued ==>
      id in settled || (s.receipt.Some? && s.receipt.value.id == id) || exists r :: r in s.superseded && r.id == id
  }

  ghost predicate JournalOk(d: Disk, s: Journal)
    reads d`files, d`tree, d`copies, d`original, d`firstTree, d`touched, d`plan, d`issued, d`settled
  {
    && BackupsOk(s.backups, d.original, d.copies, d.layout)
    && PhaseOk(s, d.files, d.original, d.layout, d.plan)
    && WriteAhead(s, d.tree, d.firstTree, d.touched, d.roots)
    && Accounted(s, d.issued, d.settled)
  }

  predicate Archivable(p: Phase) { p.Completed? || p.Unclaimed? || p.Restored? }

  /** All or nothing: a transaction that was put away left the files wholly original or wholly
      target, and took no unfinished software upgrade with it. */
  ghost predicate ArchiveOk(a: Archive, l: Layout) {
    && Archivable(a.journal.phase)
    && (a.journal.phase.Completed? ==> a.files == Target(l, a.plan, a.original))
    && (a.journal.phase.Unclaimed? ==> a.files == a.original)
    && (a.journal.phase.Restored? ==> Recovered(a.files, a.original, l))
    && Idle(a.upgrades)
  }

  /** What holds on disk at every crash point of every command. */
  ghost predicate Inv(d: Disk)
    reads d`files, d`tree, d`nextInode, d`copies, d`saved, d`upgrades
    reads d`original, d`firstTree, d`touched, d`plan, d`history, d`issued, d`sent, d`settled, d`archives
  {
    && WellFormed(d.tree, d.roots)
    && (forall p :: p in d.tree ==> d.tree[p].inode < d.nextInode)
    && (forall i :: 0 <= i < |d.archives| ==> ArchiveOk(d.archives[i], d.layout))
    && Lawful(d.history)
    && (d.saved.Some? ==>
          && JournalOk(d, d.saved.value)
          && |d.history| > 0 && d.history[|d.history| - 1] == d.saved.value.phase
          && d.sent <= d.issued && ReceiptIds(d.saved.value) <= d.issued
          && Idle(d.upgrades))
  }

  /** While the files are being changed or restored, only the backups matter to them. */
  lemma EntriesIrrelevant(s: Journal, t: Journal, files: Files, original: Files, l: Layout, plan: Plan,
                          issued: set<nat>, settled: set<nat>)
    requires s.phase.Mutating? || s.phase.Restoring?
    requires t == s.(ownership := t.ownership, recovery := t.recovery, fence := t.fence)
    ensures PhaseOk(t, files, original, l, plan) == PhaseOk(s, files, original, l, plan)
    ensures Accounted(t, issued, settled) == Accounted(s, issued, settled)
  {
  }

  lemma BackupAdded(backups: seq<FileBackup>, b: FileBackup, original: Files, copies: map<nat, Bytes>, l: Layout)
    requires BackupsOk(backups, original, copies, l)
    requires BackupOk(b, |backups|, original, copies) && b.path in l.Protected()
    requires forall k :: 0 <= k < |backups| ==> backups[k].path != b.path
    ensures BackupsOk(backups + [b], original, copies, l)
    ensures BackedUp(b.path, backups + [b])
  {
    var more := backups + [b];
    assert more[|backups|] == b && b in more;
    assert forall i :: 0 <= i < |backups| ==> more[i] == backups[i];
  }

  twostate predicate FilesKept(d: Disk)
    reads d
  {
    && d.files == old(d.files) && d.copies == old(d.copies) && d.upgrades == old(d.upgrades)
    && d.original == old(d.original) && d.plan == old(d.plan) && d.archives == old(d.archives)
  }

  /** Upgrade directories are only ever moved away with the whole journal directory. */
  twostate predicate UpgradesKept(d: Disk)
    reads d
  {
    d.base == old(d.base) && (d.upgrades == old(d.upgrades) || (d.saved == None && d.upgrades == []))
  }

  twostate predicate TreeKept(d: Disk)
    reads d
  {
    && d.tree == old(d.tree) && d.nextInode == old(d.nextInode)
    && d.firstTree == old(d.firstTree) && d.touched == old(d.touched)
  }

  twostate predicate JournalKept(d: Disk)
    reads d
  {
    && d.saved == old(d.saved) && d.history == old(d.history)
    && d.issued == old(d.issued) && d.sent == old(d.sent) && d.settled == old(d.settled)
  }

  ghost function NotesOf(d: Disk): Notes
    reads d`tree, d`firstTree, d`touched
  {
    Notes(d.tree, d.firstTree, d.touched)
  }

  /** What a daemon leaves when it has acted until it is stopped. */
  ghost function Stopped(d: Disk, daemon: Daemon): Tree
    reads d`tree, d`nextInode
  {
    Acts(daemon, d.tree, d.nextInode, d.roots).0
  }

  /** Nothing at all happened to the installation. */
  twostate predicate Untouched(d: Disk)
    reads d
  {
    FilesKept(d) && TreeKept(d) && JournalKept(d) && d.base == old(d.base)
  }

  /** The last archive holds the open transaction as it ended. */
  ghost predicate EndsArchived(d: Disk)
    reads d`files, d`original, d`plan, d`history, d`archives
  {
    && d.archives != [] && d.history != []
    && var a := d.archives[|d.archives| - 1];
       && a.files == d.files && a.original == d.original && a.plan == d.plan
       && a.journal.phase == d.history[|d.history| - 1]
  }

  /** An open transaction is carried on: it stands over the same original files, aims at the same
      target, only adds to its past, and either stays open or is archived as it ends. */
  twostate predicate CarriedOn(d: Disk)
    reads d`saved, d`files, d`original, d`plan, d`history, d`archives
  {
    && d.original == old(d.original) && d.plan == old(d.plan) && old(d.history) <= d.history
    && if d.saved.Some? then d.archives == old(d.archives)
       else |d.archives| == |old(d.archives)| + 1 && old(d.archives) <= d.archives && EndsArchived(d)
  }

  /** The disk is safe to crash on, and so is `s`, the journal that would be written next. */
  ghost predicate Sound(d: Disk, s: Journal)
    reads d`files, d`tree, d`nextInode, d`copies, d`saved, d`upgrades
    reads d`original, d`firstTree, d`touched, d`plan, d`history, d`issued, d`sent, d`settled, d`archives
  {
    Inv(d) && JournalOk(d, s) && d.saved.Some? && Follows(d.saved.value.phase, s.phase)
  }

  /** Writing the journal keeps everything, because what it says is already true. */
  twostate lemma JournalWritten(d: Disk, new s: Journal)
    requires old(Sound(d, s))
    requires FilesKept(d) && TreeKept(d) && d.sent == old(d.sent) && d.settled == old(d.settled)
    requires d.saved == Some(s) && d.history == old(d.history) + [s.phase]
    requires d.issued == old(d.issued) + ReceiptIds(s)
    ensures Sound(d, s)
  {
    assert JournalOk(d, s);
    assert Lawful(d.history);
  }

  /** Owners and modes may change wherever the durable journal has them recorded. */
  twostate lemma TreeChanged(d: Disk, new s: Journal)
    requires old(Sound(d, s)) && old(d.saved) == Some(s)
    requires FilesKept(d) && JournalKept(d) && d.firstTree == old(d.firstTree) && d.touched == old(d.touched)
    requires d.nextInode >= old(d.nextInode) && d.tree.Keys == old(d.tree).Keys
    requires forall p :: p in d.tree ==>
               && d.tree[p].kind == old(d.tree[p]).kind
               && (d.tree[p].inode == old(d.tree[p]).inode || d.tree[p].inode < d.nextInode)
    requires forall p :: p in d.tree && p !in PathsOf(s.ownership) && p !in PathsOf(s.recovery) ==>
              d.tree[p] == old(d.tree[p])
    ensures Sound(d, s)
  {
    WriteAheadKept(s, old(d.tree), d.tree, d.firstTree, d.touched, d.roots);
    ShapeKept(old(d.tree), d.tree, d.roots, []);
  }

  /** A backup file that no journal lists may hold anything. */
  twostate lemma CopiesChanged(d: Disk, new s: Journal, new k: nat)
    requires old(Sound(d, s)) && old(d.saved) == Some(s) && k >= |s.backups|
    requires TreeKept(d) && JournalKept(d) && d.files == old(d.files) && d.upgrades == old(d.upgrades)
    requires d.original == old(d.original) && d.plan == old(d.plan) && d.archives == old(d.archives)
    requires forall i :: i in old(d.copies) && i != k ==> i in d.copies && d.copies[i] == old(d.copies)[i]
    ensures Sound(d, s)
  {
  }

  lemma BackupListed(d: Disk, s: Journal, b: FileBackup)
    requires Sound(d, s) && s.phase.Prepared?
    requires BackupOk(b, |s.backups|, d.files, d.copies) && b.path in d.layout.Protected()
    requires forall k :: 0 <= k < |s.backups| ==> s.backups[k].path != b.path
    ensures Sound(d, s.(backups := s.backups + [b]))
    ensures BackedUp(b.path, s.backups + [b])
  {
    BackupAdded(s.backups, b, d.original, d.copies, d.layout);
  }

  lemma OwnershipListed(d: Disk, s: Journal, e: Ownership)
    requires Sound(d, s) && (s.phase.Mutating? || s.phase.Restoring?) && s.fence.Sealing? && d.touched == {}
    requires e.path in d.tree && e.path !in PathsOf(s.ownership) && e == Recorded(e.path, d.tree[e.path])
    ensures Sound(d, s.(ownership := s.ownership + [e]))
    ensures PathsOf(s.ownership + [e]) == PathsOf(s.ownership) + {e.path}
  {
    var t := s.(ownership := s.ownership + [e]);
    OwnershipRecorded(s, e, d.tree, d.firstTree, d.touched, d.roots);
    EntriesIrrelevant(s, t, d.files, d.original, d.layout, d.plan, d.issued, d.settled);
  }

  lemma RecoveryListed(d: Disk, s: Journal, e: Ownership)
    requires Sound(d, s) && (s.phase.Mutating? || s.phase.Restoring?) && !s.fence.Sealing?
    requires e.path in d.tree && e.path !in PathsOf(s.recovery) && e == Recorded(e.path, d.tree[e.path])
    ensures Sound(d, s.(recovery := s.recovery + [e]))
    ensures PathsOf(s.recovery + [e]) == PathsOf(s.recovery) + {e.path}
  {
    var t := s.(recovery := s.recovery + [e]);
    RecoveryRecorded(s, e, d.tree, d.firstTree, d.touched, d.roots);
    EntriesIrrelevant(s, t, d.files, d.original, d.layout, d.plan, d.issued, d.settled);
  }

  lemma TargetTouchesOnlyProtected(l: Layout, plan: Plan, original: Files)
    ensures OnlyProtectedChanged(Target(l, plan, original), original, l)
  {
  }

  /** Protected files may change once the durable journal says that they do. */
  twostate lemma FilesChanged(d: Disk, new s: Journal)
    requires old(Sound(d, s)) && old(d.saved) == Some(s) && (s.phase.Mutating? || s.phase.Restoring?)
    requires TreeKept(d) && JournalKept(d) && d.copies == old(d.copies) && d.upgrades == old(d.upgrades)
    requires d.original == old(d.original) && d.plan == old(d.plan) && d.archives == old(d.archives)
    requires OnlyProtectedChanged(d.files, old(d.files), d.layout)
    ensures Sound(d, s)
  {
  }

  /** The daemon may do anything in its own directories. */
  twostate lemma DaemonActed(d: Disk, new s: Journal, new daemon: Daemon)
    requires old(Sound(d, s))
    requires FilesKept(d) && JournalKept(d) && d.firstTree == old(d.firstTree)
    requires (d.tree, d.nextInode) == Acts(daemon, old(d.tree), old(d.nextInode), d.roots)
    requires d.touched == old(d.touched) + Differences(old(d.tree), d.tree)
    ensures Sound(d, s)
  {
  }

  /** The stopped daemon's tree becomes the one to restore, while nothing has been recorded. */
  twostate lemma TreeNoted(d: Disk, new s: Journal)
    requires old(Sound(d, s)) && Unrecorded(s) && Unrecorded(old(d.saved.value))
    requires FilesKept(d) && JournalKept(d) && d.tree == old(d.tree) && d.nextInode == old(d.nextInode)
    requires d.firstTree == d.tree && d.touched == {}
    ensures Sound(d, s)
  {
  }

  /** What the panel has settled needs no journal. */
  twostate lemma PanelActed(d: Disk, new s: Journal)
    requires old(Sound(d, s))
    requires FilesKept(d) && TreeKept(d) && d.saved == old(d.saved) && d.history == old(d.history)
    requires d.issued == old(d.issued) && old(d.settled) <= d.settled && d.sent <= d.issued
    ensures Sound(d, s)
  {
  }

  lemma StillBackedUp(p: Path, some: seq<FileBackup>, more: seq<FileBackup>)
    requires BackedUp(p, some) && some <= more
    ensures BackedUp(p, more)
  {
    var b :| b in some && b.path == p;
    assert b in more;
  }

  lemma FinishedFiles(d: Disk, s: Journal)
    requires Sound(d, s)
    ensures s.phase.Unclaimed? ==> Recovered(d.files, d.original, d.layout)
    ensures s.phase.Completed? ==> d.files == Target(d.layout, d.plan, d.original)
  {
  }

  lemma UnchangedIsRecovered(files: Files, l: Layout)
    ensures Recovered(files, files, l)
  {
  }

  /** A journal read back from disk is what the interrupted command had to rely on. */
  lemma ReadBack(d: Disk)
    requires Inv(d) && d.saved.Some?
    ensures Sound(d, d.saved.value)
  {
  }

  lemma AlreadyRestored(d: Disk, s: Journal)
    requires Sound(d, s) && s.phase.Restored?
    ensures Recovered(d.files, d.original, d.layout)
  {
  }

  lemma MutationStarts(d: Disk, s: Journal)
    requires Sound(d, s) && s.phase.Prepared? && d.saved == Some(s)
    requires Complete(s.backups, d.layout)
    ensures Sound(d, s.(phase := Mutating)) && d.files == d.original
    ensures s.fence.Unfenced? && s.ownership == [] && s.recovery == []
  {
  }

  lemma MutationEnds(d: Disk, s: Journal)
    requires Sound(d, s) && s.phase.Mutating? && d.saved == Some(s)
    requires d.files == Target(d.layout, d.plan, d.original)
    ensures Sound(d, s.(phase := LocalApplied))
  {
  }

  lemma RestorationStarts(d: Disk, s: Journal)
    requires Sound(d, s) && (s.phase.Mutating? || s.phase.LocalApplied? || s.phase.Restoring?)
    requires d.saved == Some(s) || (s.phase.Mutating? && d.saved.value.phase.Mutating?)
    ensures Sound(d, s.(phase := Restoring))
  {
    TargetTouchesOnlyProtected(d.layout, d.plan, d.original);
  }

  /** Path `p` is as its backup describes it. */
  ghost predicate AsBackedUp(p: Path, files: Files, original: Files) {
    (p in files <==> p in original) && (p in files ==> files[p] == Captured(original[p]))
  }

  lemma RestorationEnds(d: Disk, s: Journal)
    requires Sound(d, s) && s.phase.Restoring? && d.saved == Some(s)
    requires forall k :: 0 <= k < |s.backups| ==> AsBackedUp(s.backups[k].path, d.files, d.original)
    ensures Sound(d, s.(phase := Restored)) && PutBackExactly(d.files, d.original, d.layout)
    ensures Recovered(d.files, d.original, d.layout)
  {
    assert forall p :: p in d.layout.Protected() ==> BackedUp(p, s.backups);
    assert d.files.Keys == d.original.Keys by {
      forall p ensures p in d.files <==> p in d.original {
        if p in d.layout.Protected() {
          var b :| b in s.backups && b.path == p;
          var k :| 0 <= k < |s.backups| && s.backups[k] == b;
        }
      }
    }
    forall p | p in d.files
      ensures d.files[p] == if p in d.layout.Protected() then Captured(d.original[p]) else d.original[p]
    {
      if p in d.layout.Protected() {
        var b :| b in s.backups && b.path == p;
        var k :| 0 <= k < |s.backups| && s.backups[k] == b;
      }
    }
  }

  lemma BackupFacts(d: Disk, s: Journal, k: nat)
    requires Sound(d, s) && k < |s.backups|
    ensures BackupOk(s.backups[k], k, d.original, d.copies) && s.backups[k].path in d.layout.Protected()
    ensures forall j :: 0 <= j < |s.backups| && j != k ==> s.backups[j].path != s.backups[k].path
  {
  }

  twostate lemma PutAway(d: Disk, new s: Journal)
    requires old(Sound(d, s)) && old(d.saved) == Some(s)
    requires Archivable(s.phase)
    requires TreeKept(d) && d.saved == None && d.history == old(d.history)
    requires d.files == old(d.files) && d.original == old(d.original) && d.plan == old(d.plan)
    requires d.archives == old(d.archives) + [Archive(s, old(d.upgrades), old(d.files), old(d.original), old(d.plan))]
    ensures Inv(d) && EndsArchived(d)
  {
    assert ArchiveOk(d.archives[|d.archives| - 1], d.layout);
  }

  /** A fresh claim: nothing is backed up, recorded or changed. */
  predicate Fresh(s: Journal) {
    && s.phase.Claiming? && !s.operation && s.fence.Unfenced?
    && s.backups == [] && s.ownership == [] && s.recovery == [] && s.receipt.None? && s.superseded == []
  }

  twostate lemma Claimed(d: Disk, new s: Journal)
    requires old(Inv(d)) && Fresh(s) && Idle(d.upgrades)
    requires d.tree == old(d.tree) && d.nextInode == old(d.nextInode) && d.archives == old(d.archives)
    requires d.saved == Some(s) && d.history == [Claiming] && d.issued == {} && d.sent == {}
    requires d.original == d.files && d.firstTree == d.tree && d.touched == {}
    ensures Sound(d, s)
  {
  }

  /** Before the mutating marker nothing has changed, so giving up is restoration. */
  lemma NothingChangedYet(d: Disk, s: Journal)
    requires Sound(d, s) && (s.phase.Claiming? || s.phase.Prepared?) && d.saved == Some(s)
    ensures Sound(d, s.(phase := Restored)) && d.files == d.original
    ensures s.phase.Claiming? ==> Sound(d, s.(phase := Unclaimed))
    ensures s.phase.Claiming? ==> Sound(d, s.(phase := Prepared, operation := true))
  {
  }

  lemma Acknowledged(d: Disk, s: Journal)
    requires Sound(d, s) && s.phase.LocalApplied? && d.saved == Some(s)
    ensures Sound(d, s.(phase := Completed)) && d.files == Target(d.layout, d.plan, d.original)
  {
  }

  lemma DurableReceipt(d: Disk, s: Journal)
    requires Sound(d, s) && d.saved == Some(s)
    ensures ReceiptIds(s) <= d.issued && d.sent <= d.issued
  {
  }

  lemma Ahead(d: Disk, s: Journal)
    requires Sound(d, s)
    ensures WriteAhead(s, d.tree, d.firstTree, d.touched, d.roots) && WellFormed(d.tree, d.roots)
  {
  }

  lemma ReceiptNoted(d: Disk, s: Journal, r: Receipt)
    requires Sound(d, s) && s.receipt.None?
    ensures Sound(d, s.(receipt := Some(r)))
  {
    ReceiptsIrrelevant(s, s.(receipt := Some(r)), d.files, d.original, d.layout, d.plan);
  }

  lemma ReceiptSettled(d: Disk, s: Journal)
    requires Sound(d, s) && s.receipt.Some? && s.receipt.value.id in d.settled
    ensures Sound(d, s.(receipt := None))
  {
    ReceiptsIrrelevant(s, s.(receipt := None), d.files, d.original, d.layout, d.plan);
  }

  lemma ReceiptSuperseded(d: Disk, s: Journal)
    requires Sound(d, s) && s.receipt.Some?
    ensures Sound(d, s.(superseded := s.superseded + [s.receipt.value], receipt := None))
  {
    var t := s.(superseded := s.superseded + [s.receipt.value], receipt := None);
    ReceiptsIrrelevant(s, t, d.files, d.original, d.layout, d.plan);
    assert t.superseded[|s.superseded|] == s.receipt.value;
    assert forall r :: r in s.superseded ==> r in t.superseded;
  }

  lemma ReceiptsIrrelevant(s: Journal, t: Journal, files: Files, original: Files, l: Layout, plan: Plan)
    requires t == s.(receipt := t.receipt, superseded := t.superseded)
    ensures PhaseOk(t, files, original, l, plan) == PhaseOk(s, files, original, l, plan)
  {
  }

  lemma Shape(d: Disk)
    requires Inv(d)
    ensures WellFormed(d.tree, d.roots)
  {
  }

  lemma SealingStarts(d: Disk, s: Journal)
    requires Sound(d, s) && (s.phase.Mutating? || s.phase.Restoring?)
    requires s.fence.Unfenced? && s.recovery == []
    ensures Sound(d, s.(fence := Sealing))
  {
    EntriesIrrelevant(s, s.(fence := Sealing), d.files, d.original, d.layout, d.plan, d.issued, d.settled);
  }

  /** The fence is complete: from here on the journal lists the whole original tree. */
  lemma ProfileStarts(d: Disk, s: Journal)
    requires Sound(d, s) && s.phase.Mutating? && s.fence.Sealing?
    requires d.tree.Keys == d.firstTree.Keys && d.tree.Keys <= PathsOf(s.ownership)
    requires forall i :: 0 <= i < |d.roots| ==> d.roots[i] in d.tree
    ensures Sound(d, s.(fence := Profile))
  {
    EntriesIrrelevant(s, s.(fence := Profile), d.files, d.original, d.layout, d.plan, d.issued, d.settled);
  }

  lemma EntriesDistinct(d: Disk, s: Journal)
    requires Sound(d, s)
    ensures Distinct(s.ownership) && Distinct(s.recovery)
  {
  }

  /** Files put back from their backups are the original ones exactly when none of the protected
      ones carried a set-user-ID, set-group-ID or sticky bit, which the backups do not record. */
  lemma RecoveredExactly(files: Files, original: Files, l: Layout)
    requires PutBackExactly(files, original, l)
    ensures files == original <==> forall p :: p in l.Protected() && p in original ==> original[p].mode < 0x200
  {
    if p :| p in l.Protected() && p in original && original[p].mode >= 0x200 {
      assert files[p].mode != original[p].mode;
    }
  }
}
