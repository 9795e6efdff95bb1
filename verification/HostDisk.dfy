/** What the host commands leave on disk, and the only operations that change it.

    A crash is an operation that clears `up`: from then on every operation fails and
    changes nothing, so the state a method returns with `!up` is the durable state at the
    point where the process died.  Whatever a method promises whether or not it succeeds
    is therefore promised at every one of its crash points. */
module HostDisk {
  import opened Options

  type Bytes = seq<bv8>

  /** The components of a clean absolute path. */
  type Path = seq<string>

  /** How one operation on the outside world turns out.  `Late` took effect but was
      reported as a failure, like a rename whose directory could not be synced. */
  datatype Fate = Fine | Refused | Late | CrashBefore | CrashAfter {
    predicate Applies() { Fine? || Late? || CrashAfter? }
    predicate Crashes() { CrashBefore? || CrashAfter? }
  }

  /** `mode` holds all twelve permission bits. */
  datatype File = File(bytes: Bytes, mode: nat, uid: int, gid: int)

  /** Go's `Perm()`: the set-user-ID, set-group-ID and sticky bits are dropped. */
  function Perm(mode: nat): nat { mode % 0x200 }

  /** A file as a backup can give it back. */
  function Captured(f: File): File { f.(mode := Perm(f.mode)) }

  datatype Kind = Directory | Regular | Symlink | Other

  datatype Node = Node(kind: Kind, mode: nat, uid: int, gid: int, device: nat, links: nat, size: nat, inode: nat)

  datatype Ownership = Ownership(path: Path, uid: int, gid: int, mode: nat)

  datatype FileBackup = FileBackup(path: Path, copy: nat, mode: nat, uid: int, gid: int, existed: bool)

  datatype Phase = Claiming | Prepared | Mutating | LocalApplied | Completed | Restoring | Restored | Unclaimed

  /** `Unfenced` is the empty `fence_stage` string. */
  datatype FenceStage = Unfenced | Sealing | Profile

  datatype ReportPhase = ReportApplying | ReportLocalApplied | ReportRestored

  datatype Receipt = Receipt(id: nat, phase: ReportPhase)

  datatype Journal = Journal(
    phase: Phase,
    operation: bool,
    backups: seq<FileBackup>,
    ownership: seq<Ownership>,
    recovery: seq<Ownership>,
    fence: FenceStage,
    receipt: Option<Receipt>,
    superseded: seq<Receipt>,
    previousHelper: bool)

  /** The seven protected files, in the order in which they are backed up. */
  datatype Layout = Layout(
    profile: Path, bootstrap: Path, policy: Path, applied: Path,
    helperBinary: Path, helperConfig: Path, helperUnit: Path,
    executable: Path, hostTool: Path)
  {
    function Protected(): seq<Path> {
      [profile, bootstrap, policy, applied, helperBinary, helperConfig, helperUnit]
    }

    /** The four files replaced as a unit by a software upgrade. */
    function Upgraded(): seq<Path> { [executable, hostTool, helperBinary, helperConfig] }
  }

  datatype UpgradePhase = UPrepared | UReplacing | URestoreFailed | UCompleted | URestored | UUnknown

  datatype UpgradeJournal = UpgradeJournal(
    phase: UpgradePhase, version: string, bound: bool, modes: seq<nat>, active: seq<bool>)

  /** An `upgrade-*` directory: numbered backups, its journal and the preserved attempts. */
  datatype UpgradeDir = UpgradeDir(backups: seq<Bytes>, journal: Option<UpgradeJournal>, attempts: seq<UpgradeJournal>)

  /** What the approved revision makes executeTransaction write. */
  datatype HelperFiles = HelperFiles(binary: File, config: File, unit: File)

  datatype Plan = Plan(
    policy: File, bootstrap: File, profile: File, applied: File,
    helper: Option<HelperFiles>, rescueEnabled: bool,
    nonRoot: bool, uid: int, gid: int)

  /** A finished transaction directory, with the files as they were when it was moved away. */
  datatype Archive = Archive(
    journal: Journal, upgrades: seq<UpgradeDir>,
    files: map<Path, File>, original: map<Path, File>, plan: Plan)

  class Disk {
    const layout: Layout
    const roots: seq<Path>

    var up: bool
    var files: map<Path, File>
    var tree: map<Path, Node>
    var nextInode: nat
    var copies: map<nat, Bytes>
    var saved: Option<Journal>
    var upgrades: seq<UpgradeDir>

    ghost var original: map<Path, File>
    ghost var firstTree: map<Path, Node>
    ghost var touched: set<Path>
    ghost var plan: Plan
    ghost var history: seq<Phase>
    ghost var issued: set<nat>    // receipts that were ever durable
    ghost var sent: set<nat>      // receipts that were ever sent to the panel
    ghost var settled: set<nat>   // receipts the panel needs no more
    ghost var archives: seq<Archive>
    ghost var base: seq<File>     // the four files before the first attempt of the last upgrade

    constructor (layout: Layout, roots: seq<Path>, files: map<Path, File>, tree: map<Path, Node>, nextInode: nat,
                 ghost plan: Plan)
      requires forall p :: p in tree ==> tree[p].inode < nextInode
      ensures this.layout == layout && this.roots == roots
      ensures up && this.files == files && this.tree == tree && saved == None && upgrades == [] && copies == map[]
      ensures archives == [] && history == [] && issued == {} && sent == {} && settled == {}
      ensures this.nextInode == nextInode
    {
      this.layout, this.roots := layout, roots;
      up, this.files, this.tree := true, files, tree;
      saved, upgrades, copies := None, [], map[];
      original, firstTree, touched, this.plan := files, tree, {}, plan;
      history, archives, issued, sent, settled, base := [], [], {}, {}, {}, [];
      this.nextInode := nextInode;
    }

    /** A step whose effect is not on this disk: systemctl, a network call, a lookup. */
    method Ask() returns (ok: bool)
      modifies this`up
      ensures up ==> old(up)
      ensures ok ==> up
    {
      var fate: Fate := *;
      ok := Check(fate);
    }

    method Check(fate: Fate) returns (ok: bool)
      modifies this`up
      ensures up == (old(up) && !fate.Crashes())
      ensures ok == (old(up) && fate.Fine?)
    {
      ok := up && fate.Fine?;
      up := up && !fate.Crashes();
    }

    method AtomicWrite(path: Path, file: File, fate: Fate) returns (ok: bool)
      modifies this`up, this`files
      ensures up == (old(up) && !fate.Crashes())
      ensures ok == (old(up) && fate.Fine?)
      ensures files == if old(up) && fate.Applies() then old(files)[path := file] else old(files)
    {
      if up && fate.Applies() { files := files[path := file]; }
      ok := Check(fate);
    }

    /** Removing a file that does not exist is not an error to any caller. */
    method Remove(path: Path, fate: Fate) returns (ok: bool)
      modifies this`up, this`files
      ensures up == (old(up) && !fate.Crashes())
      ensures ok == (old(up) && fate.Fine?)
      ensures files == if old(up) && fate.Applies() then old(files) - {path} else old(files)
    {
      if up && fate.Applies() { files := files - {path}; }
      ok := Check(fate);
    }

    method SetOwner(path: Path, uid: int, gid: int, fate: Fate) returns (ok: bool)
      modifies this`up, this`tree
      ensures up == (old(up) && !fate.Crashes())
      ensures ok == (old(up) && fate.Fine? && path in old(tree))
      ensures tree == if old(up) && fate.Applies() && path in old(tree)
                      then old(tree)[path := old(tree)[path].(uid := uid, gid := gid)] else old(tree)
    {
      var found := path in tree;
      if up && fate.Applies() && found { tree := tree[path := tree[path].(uid := uid, gid := gid)]; }
      ok := Check(fate);
      ok := ok && found;
    }

    method SetMode(path: Path, mode: nat, fate: Fate) returns (ok: bool)
      modifies this`up, this`tree
      ensures up == (old(up) && !fate.Crashes())
      ensures ok == (old(up) && fate.Fine? && path in old(tree))
      ensures tree == if old(up) && fate.Applies() && path in old(tree)
                      then old(tree)[path := old(tree)[path].(mode := mode)] else old(tree)
    {
      var found := path in tree;
      if up && fate.Applies() && found { tree := tree[path := tree[path].(mode := mode)]; }
      ok := Check(fate);
      ok := ok && found;
    }

    /** The rename that ends a copy: the name now leads to an inode nobody had open. */
    method ReplaceInode(path: Path, fate: Fate) returns (ok: bool)
      modifies this`up, this`tree, this`nextInode
      ensures up == (old(up) && !fate.Crashes())
      ensures ok == (old(up) && fate.Fine? && path in old(tree))
      ensures nextInode == old(nextInode) + 1
      ensures tree == if old(up) && fate.Applies() && path in old(tree)
                      then old(tree)[path := old(tree)[path].(inode := old(nextInode), links := 1)] else old(tree)
    {
      var found := path in tree;
      if up && fate.Applies() && found { tree := tree[path := tree[path].(inode := nextInode, links := 1)]; }
      nextInode := nextInode + 1;
      ok := Check(fate);
      ok := ok && found;
    }
  }
}
