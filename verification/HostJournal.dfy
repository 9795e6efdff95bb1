/** The transaction journal in the hands of one host command. */
module HostJournals {
  import opened Options
  import opened HostDisk
  import opened StateTree
  import opened UpgradeState
  import opened HostTransaction

  class HostJournal {
    const disk: Disk
    var s: Journal

    constructor (disk: Disk, s: Journal)
      ensures this.disk == disk && this.s == s
    {
      this.disk, this.s := disk, s;
    }

    ghost predicate Synced()
      reads this`s, disk`files, disk`tree, disk`nextInode, disk`copies, disk`saved, disk`upgrades
      reads disk`original, disk`firstTree, disk`touched, disk`plan, disk`history, disk`issued, disk`sent
      reads disk`settled, disk`archives
    {
      Sound(disk, s) && disk.saved == Some(s)
    }

    method Save() returns (ok: bool)
      requires Sound(disk, s)
      modifies disk`up, disk`saved, disk`history, disk`issued
      ensures Sound(disk, s)
      ensures disk.up ==> old(disk.up)
      ensures ok ==> disk.up && disk.saved == Some(s)
      ensures || (disk.saved == old(disk.saved) && disk.history == old(disk.history) && disk.issued == old(disk.issued))
              || (disk.saved == Some(s) && disk.history == old(disk.history) + [s.phase]
                  && disk.issued == old(disk.issued) + ReceiptIds(s))
    {
      hide Inv, JournalOk;
      var fate: Fate := *;
      if disk.up && fate.Applies() {
        disk.saved := Some(s);
        disk.history := disk.history + [s.phase];
        disk.issued := disk.issued + ReceiptIds(s);
        JournalWritten(disk, s);
      }
      ok := disk.Check(fate);
    }

    /** The first durable trace of a transaction, written before the panel is asked for it. */
    method Claim(ghost plan: Plan) returns (ok: bool)
      requires Inv(disk) && disk.saved == None && Idle(disk.upgrades) && Fresh(s)
      modifies disk`up, disk`saved, disk`history, disk`issued, disk`sent, disk`settled
      modifies disk`original, disk`firstTree, disk`touched, disk`plan
      ensures Inv(disk)
      ensures disk.up ==> old(disk.up)
      ensures disk.saved == None || disk.saved == Some(s)
      ensures disk.plan == plan && disk.original == disk.files && disk.history == [Claiming]
      ensures disk.firstTree == disk.tree && disk.touched == {}
      ensures disk.issued == {} && disk.sent == {} && disk.settled == {}
      ensures ok ==> disk.up && Synced()
    {
      hide Inv, Sound, Fresh, Idle;
      NoteOriginals(plan);
      var fate: Fate := *;
      if disk.up && fate.Applies() {
        disk.saved := Some(s);
        Claimed(disk, s);
      }
      ok := disk.Check(fate);
    }

    /** Remembers, for the proof only, what this transaction starts from. */
    ghost method NoteOriginals(plan: Plan)
      requires Inv(disk) && disk.saved == None
      modifies disk`history, disk`issued, disk`sent, disk`settled, disk`original, disk`firstTree, disk`touched
      modifies disk`plan
      ensures Inv(disk) && disk.plan == plan
      ensures disk.history == [Claiming] && disk.issued == {} && disk.sent == {} && disk.settled == {}
      ensures disk.original == disk.files && disk.firstTree == disk.tree && disk.touched == {}
    {
      disk.history, disk.issued, disk.sent, disk.settled := [Claiming], {}, {}, {};
      disk.original, disk.firstTree, disk.touched, disk.plan := disk.files, disk.tree, {}, plan;
    }

    // ---- backups ----------------------------------------------------------------------

    method Backup(path: Path) returns (ok: bool)
      requires Synced() && s.phase.Prepared? && path in disk.layout.Protected()
      modifies this`s, disk`up, disk`copies, disk`saved, disk`history, disk`issued
      ensures Sound(disk, s) && s.phase.Prepared?
      ensures disk.up ==> old(disk.up)
      ensures old(disk.history) <= disk.history
      ensures s == old(s).(backups := s.backups) && old(s.backups) <= s.backups
      ensures disk.saved.value.fence == s.fence
      ensures ok ==> Synced() && BackedUp(path, s.backups)
    {
      hide Inv, JournalOk;
      for i := 0 to |s.backups|
        invariant forall k :: 0 <= k < i ==> s.backups[k].path != path
      {
        if s.backups[i].path == path {
          assert s.backups[i] in s.backups;
          return true;
        }
      }
      var b := FileBackup(path, |s.backups|, 0, 0, 0, false);
      var seen := disk.Ask();
      if !seen { return false; }
      if path in disk.files {
        var trusted := disk.Ask();
        if !trusted { return false; }
        var f := disk.files[path];
        b := b.(existed := true, mode := Perm(f.mode), uid := f.uid, gid := f.gid);
        ok := Copy(b.copy, f.bytes);
        if !ok { return false; }
      }
      BackupListed(disk, s, b);
      s := s.(backups := s.backups + [b]);
      ok := Save();
    }

    /** Creates a new backup file; a failed or interrupted copy leaves any part of it. */
    method Copy(k: nat, bytes: Bytes) returns (ok: bool)
      requires Sound(disk, s) && k >= |s.backups| && disk.saved == Some(s)
      modifies disk`up, disk`copies
      ensures Sound(disk, s) && disk.saved == Some(s)
      ensures disk.up ==> old(disk.up)
      ensures ok ==> disk.up && k in disk.copies && disk.copies[k] == bytes
    {
      hide Inv, JournalOk;
      if k in disk.copies { return false; }
      var alive := disk.up;
      ok := disk.Ask();
      var part: Bytes := *;
      disk.copies := if alive then disk.copies[k := if ok then bytes else part] else disk.copies;
      CopiesChanged(disk, s, k);
    }

    // ---- the state tree ---------------------------------------------------------------

    ghost function Entries(recovery: bool): seq<Ownership>
      reads this`s
    {
      if recovery then s.recovery else s.ownership
    }

    ghost predicate Fencing(recovery: bool)
      reads this`s, disk`files, disk`tree, disk`nextInode, disk`copies, disk`saved, disk`upgrades
      reads disk`original, disk`firstTree, disk`touched, disk`plan, disk`history, disk`issued, disk`sent
      reads disk`settled, disk`archives
    {
      && Sound(disk, s) && disk.saved.value.phase == s.phase && disk.saved.value.fence == s.fence
      && (if recovery then !s.fence.Sealing?
          else s.fence.Sealing? && disk.touched == {} && disk.tree.Keys == disk.firstTree.Keys && s.recovery == [])
      && (s.phase.Mutating? || s.phase.Restoring?)
    }

    method Record(path: Path, recovery: bool) returns (ok: bool)
      requires Fencing(recovery) && path in disk.tree
      modifies this`s, disk`up, disk`saved, disk`history, disk`issued
      ensures Fencing(recovery)
      ensures disk.up ==> old(disk.up)
      ensures old(disk.history) <= disk.history
      ensures s == if recovery then old(s).(recovery := s.recovery) else old(s).(ownership := s.ownership)
      ensures old(Entries(recovery)) <= Entries(recovery)
      ensures ok ==> disk.up && disk.saved == Some(s) && path in PathsOf(Entries(recovery))
    {
      hide Inv, JournalOk;
      var known := IsKnown(if recovery then s.recovery else s.ownership, path);
      if !known {
        if |if recovery then s.recovery else s.ownership| >= MAX_STATE_ENTRIES { return false; }
        var e := Recorded(path, disk.tree[path]);
        if recovery {
          RecoveryListed(disk, s, e);
          s := s.(recovery := s.recovery + [e]);
        } else {
          OwnershipListed(disk, s, e);
          s := s.(ownership := s.ownership + [e]);
        }
      }
      ok := Save();
    }

    /** Copies the entry to a fresh root inode and gives it to root, recording it first. */
    method Seal(path: Path, owner: int, device: nat, depth: nat, recovery: bool, entries: nat, bytes: nat)
      returns (ok: bool, entries': nat, bytes': nat)
      requires Fencing(recovery) && depth <= 9 && Chained(disk.tree, path)
      modifies this`s, disk`up, disk`tree, disk`nextInode, disk`saved, disk`history, disk`issued
      ensures Fencing(recovery)
      ensures disk.up ==> old(disk.up)
      ensures old(disk.history) <= disk.history
      ensures s == if recovery then old(s).(recovery := s.recovery) else old(s).(ownership := s.ownership)
      ensures old(Entries(recovery)) <= Entries(recovery)
      ensures Within(old(disk.tree), disk.tree, path) && disk.nextInode >= old(disk.nextInode)
      ensures ok ==> disk.up && path in disk.tree && disk.saved == Some(s)
                     && SealedBelow(disk.tree, path, PathsOf(Entries(recovery)), old(disk.nextInode))
      decreases 9 - depth, 2
    {
      hide Fencing, Sound, SealedBelow, Chained;
      entries', bytes' := entries, bytes;
      if depth > 8 { return false, entries', bytes'; }
      ok, entries' := Inspect(path, owner, device, entries, bytes);
      if !ok { return; }
      var n := disk.tree[path];
      ok := Record(path, recovery);
      if !ok { return false, entries', bytes'; }
      ok := TakeOver(path, recovery);
      if !ok { return false, entries', bytes'; }
      ShapeKept(old(disk.tree), disk.tree, disk.roots, path);
      if n.kind.Directory? {
        ok, entries', bytes' := SealChildren(path, owner, device, depth, recovery, entries', bytes');
      } else {
        ok := CopyToFreshInode(path, recovery);
        bytes' := if ok then bytes' + n.size else bytes';
      }
    }

    /** Refuses what may not be part of the state tree. */
    method Inspect(path: Path, owner: int, device: nat, entries: nat, bytes: nat) returns (ok: bool, entries': nat)
      modifies disk`up
      ensures disk.up ==> old(disk.up)
      ensures ok ==> disk.up && path in disk.tree && (disk.tree[path].kind.Directory? || disk.tree[path].kind.Regular?)
      ensures ok ==> disk.tree[path].device == device && (disk.tree[path].uid == owner || disk.tree[path].uid == 0)
      ensures ok && disk.tree[path].kind.Regular? ==>
                && disk.tree[path].links == 1 && disk.tree[path].size <= MAX_STATE_FILE_BYTES
                && bytes + disk.tree[path].size <= MAX_STATE_TREE_BYTES
      ensures ok ==> entries' == entries + 1 <= MAX_STATE_ENTRIES
    {
      entries' := entries;
      var readable := disk.Ask();
      if !readable || path !in disk.tree || (!disk.tree[path].kind.Directory? && !disk.tree[path].kind.Regular?) {
        return false, entries';
      }
      var n := disk.tree[path];
      if n.device != device || (n.uid != owner && n.uid != 0) || (n.kind.Regular? && n.links != 1) {
        return false, entries';
      }
      entries' := entries' + 1;
      if entries' > MAX_STATE_ENTRIES { return false, entries'; }
      var left := MAX_STATE_TREE_BYTES - bytes;
      var remaining := if MAX_STATE_FILE_BYTES < left then MAX_STATE_FILE_BYTES else left;
      if n.kind.Regular? && n.size > remaining { return false, entries'; }
      ok := true;
    }

    /** Changes the owner of a node, then its mode. */
    method GiveTo(path: Path, uid: int, gid: int, mode: nat) returns (ok: bool)
      requires path in disk.tree
      modifies disk`up, disk`tree
      ensures disk.up ==> old(disk.up)
      ensures var n := old(disk.tree[path]);
              || (!ok && disk.tree == old(disk.tree))
              || (!ok && disk.tree == old(disk.tree)[path := n.(uid := uid, gid := gid)])
              || disk.tree == old(disk.tree)[path := n.(uid := uid, gid := gid, mode := mode)]
      ensures ok ==> disk.up
    {
      var fate: Fate := *;
      ok := disk.SetOwner(path, uid, gid, fate);
      if ok {
        fate := *;
        ok := disk.SetMode(path, mode, fate);
      }
    }

    /** Gives a recorded node to root and closes its mode. */
    method TakeOver(path: Path, recovery: bool) returns (ok: bool)
      requires Fencing(recovery) && disk.saved == Some(s)
      requires path in disk.tree && (disk.tree[path].kind.Directory? || disk.tree[path].kind.Regular?)
                && path in PathsOf(Entries(recovery))
      modifies disk`up, disk`tree
      ensures Fencing(recovery) && disk.saved == Some(s)
      ensures disk.up ==> old(disk.up)
      ensures Within(old(disk.tree), disk.tree, path)
      ensures ok ==> disk.up && IsSealed(disk.tree[path])
    {
      hide Inv, JournalOk, Within, Sound;
      ok := GiveTo(path, 0, 0, SealedMode(disk.tree[path]));
      TreeChanged(disk, s);
      OneNodeChanged(old(disk.tree), disk.tree, path);
    }

    method CopyToFreshInode(path: Path, recovery: bool) returns (ok: bool)
      requires Fencing(recovery) && disk.saved == Some(s) && Chained(disk.tree, path)
      requires path in disk.tree && path in PathsOf(Entries(recovery))
      requires disk.tree[path].kind.Regular? && IsSealed(disk.tree[path])
      modifies disk`up, disk`tree, disk`nextInode
      ensures Fencing(recovery) && disk.saved == Some(s)
      ensures disk.up ==> old(disk.up)
      ensures Within(old(disk.tree), disk.tree, path) && disk.nextInode >= old(disk.nextInode)
      ensures ok ==> disk.up && SealedBelow(disk.tree, path, PathsOf(Entries(recovery)), old(disk.nextInode))
    {
      hide Inv, JournalOk, SealedBelow, Chained, Within, Sound;
      OneNodeChanged(disk.tree, disk.tree, path);
      ok := disk.Ask();
      if !ok { return false; }
      var fate: Fate := *;
      ok := disk.ReplaceInode(path, fate);
      TreeChanged(disk, s);
      OneNodeChanged(old(disk.tree), disk.tree, path);
      if ok {
        ShapeKept(old(disk.tree), disk.tree, disk.roots, path);
        FileSealed(disk.tree, path, PathsOf(Entries(recovery)), old(disk.nextInode));
      }
    }

    /** Seals one more child; the children sealed before stay sealed. */
    method SealChild(path: Path, c: Path, ghost done: set<Path>, owner: int, device: nat, depth: nat, recovery: bool,
                     entries: nat, bytes: nat, ghost firstInode: nat)
      returns (ok: bool, entries': nat, bytes': nat)
      requires Fencing(recovery) && depth <= 8 && Chained(disk.tree, path) && firstInode <= disk.nextInode
      requires path in disk.tree && IsChild(path, c) && c !in done
      requires forall x :: x in done ==>
                IsChild(path, x) && SealedBelow(disk.tree, x, PathsOf(Entries(recovery)), firstInode)
      modifies this`s, disk`up, disk`tree, disk`nextInode, disk`saved, disk`history, disk`issued
      ensures Fencing(recovery)
      ensures disk.up ==> old(disk.up)
      ensures old(disk.history) <= disk.history
      ensures s == if recovery then old(s).(recovery := s.recovery) else old(s).(ownership := s.ownership)
      ensures old(Entries(recovery)) <= Entries(recovery)
      ensures Within(old(disk.tree), disk.tree, c) && disk.nextInode >= old(disk.nextInode)
      ensures path in disk.tree && disk.tree[path] == old(disk.tree[path]) && Chained(disk.tree, path)
      ensures ok ==> disk.up && disk.saved == Some(s)
      ensures ok ==> forall x :: x in done + {c} ==> SealedBelow(disk.tree, x, PathsOf(Entries(recovery)), firstInode)
      decreases 9 - depth, 0
    {
      hide Fencing, Sound, SealedBelow, Chained, PathsOf;
      ChainedBelow(disk.tree, path, c);
      ok, entries', bytes' := Seal(c, owner, device, depth + 1, recovery, entries, bytes);
      ShapeKept(old(disk.tree), disk.tree, disk.roots, path);
      if ok {
        PrefixPaths(old(Entries(recovery)), Entries(recovery));
        forall x | x in done
          ensures SealedBelow(disk.tree, x, PathsOf(Entries(recovery)), firstInode)
        {
          SiblingStaysSealed(old(disk.tree), disk.tree, path, x, c, PathsOf(old(Entries(recovery))),
                             PathsOf(Entries(recovery)), firstInode);
        }
        OlderInodes(disk.tree, c, PathsOf(Entries(recovery)), old(disk.nextInode), firstInode);
      }
    }

    method SealChildren(path: Path, owner: int, device: nat, depth: nat, recovery: bool, entries: nat, bytes: nat)
      returns (ok: bool, entries': nat, bytes': nat)
      requires Fencing(recovery) && depth <= 8 && disk.saved == Some(s) && Chained(disk.tree, path)
      requires path in disk.tree && path in PathsOf(Entries(recovery))
      requires disk.tree[path].kind.Directory? && IsSealed(disk.tree[path])
      modifies this`s, disk`up, disk`tree, disk`nextInode, disk`saved, disk`history, disk`issued
      ensures Fencing(recovery)
      ensures disk.up ==> old(disk.up)
      ensures old(disk.history) <= disk.history
      ensures s == if recovery then old(s).(recovery := s.recovery) else old(s).(ownership := s.ownership)
      ensures old(Entries(recovery)) <= Entries(recovery)
      ensures Within(old(disk.tree), disk.tree, path) && disk.nextInode >= old(disk.nextInode)
      ensures ok ==> disk.up && disk.saved == Some(s)
                     && SealedBelow(disk.tree, path, PathsOf(Entries(recovery)), old(disk.nextInode))
      decreases 9 - depth, 1
    {
      hide Fencing, Sound, SealedBelow, Chained, PathsOf, Within;
      OneNodeChanged(disk.tree, disk.tree, path);
      entries', bytes' := entries, bytes;
      ok := disk.Ask();
      var children := set q | q in disk.tree && IsChild(path, q);
      if !ok || |children| > MAX_STATE_ENTRIES { return false, entries', bytes'; }
      var todo := children;
      while todo != {}
        invariant todo <= children
        invariant Fencing(recovery) && disk.up && old(disk.up) && disk.saved == Some(s)
        invariant old(disk.history) <= disk.history
        invariant s == if recovery then old(s).(recovery := s.recovery) else old(s).(ownership := s.ownership)
        invariant old(Entries(recovery)) <= Entries(recovery)
        invariant Within(old(disk.tree), disk.tree, path) && disk.nextInode >= old(disk.nextInode)
        invariant disk.tree.Keys == old(disk.tree).Keys && disk.tree[path] == old(disk.tree[path])
        invariant Chained(disk.tree, path)
        invariant forall c :: c in children - todo ==>
                    SealedBelow(disk.tree, c, PathsOf(Entries(recovery)), old(disk.nextInode))
      {
        var c :| c in todo;
        ghost var tree := disk.tree;
        ok, entries', bytes' := SealChild(path, c, children - todo, owner, device, depth, recovery, entries', bytes',
                                          old(disk.nextInode));
        WithinTwice(old(disk.tree), tree, disk.tree, path, c);
        if !ok { return false, entries', bytes'; }
        todo := todo - {c};
      }
      PrefixPaths(old(Entries(recovery)), Entries(recovery));
      DirectorySealed(disk.tree, path, children, PathsOf(Entries(recovery)), old(disk.nextInode));
      ok := disk.Ask();
    }

    /** Fences every state root.  A recovery that finds the first fence unfinished fences
        nothing: no profile was published, and the recorded metadata is enough. */
    method FenceStateDirectories(owner: int, recovery: bool) returns (ok: bool)
      requires Synced() && (s.phase.Mutating? || s.phase.Restoring?)
      requires !recovery ==> s.fence.Unfenced? && s.recovery == [] && disk.touched == {} && disk.firstTree == disk.tree
      modifies this`s, disk`up, disk`tree, disk`nextInode, disk`saved, disk`history, disk`issued
      ensures Sound(disk, s)
      ensures disk.up ==> old(disk.up)
      ensures old(disk.history) <= disk.history
      ensures disk.saved.value.phase == s.phase == old(s).phase
      ensures recovery ==> s == old(s).(recovery := s.recovery) && disk.saved.value.fence == s.fence
      ensures !recovery ==> s == old(s).(ownership := s.ownership, fence := s.fence)
      ensures ok ==> disk.up && disk.saved == Some(s)
      ensures disk.tree.Keys == old(disk.tree).Keys
      ensures !recovery ==> s.fence.Sealing?
      ensures ok && !(recovery && s.fence.Sealing?) ==>
                && AllSealed(disk.tree, PathsOf(Entries(recovery)), old(disk.nextInode))
                && forall i :: 0 <= i < |disk.roots| ==> disk.roots[i] in disk.tree
    {
      hide Inv, JournalOk, AllSealed, PathsOf;
      if recovery && s.fence.Sealing? { return disk.up; }
      if !recovery {
        SealingStarts(disk, s);
        s := s.(fence := Sealing);
        ok := Save();
        if !ok { return; }
      }
      ok := SealRoots(owner, recovery);
    }

    method SealRoots(owner: int, recovery: bool) returns (ok: bool)
      requires Fencing(recovery) && disk.saved == Some(s)
      modifies this`s, disk`up, disk`tree, disk`nextInode, disk`saved, disk`history, disk`issued
      ensures Fencing(recovery)
      ensures disk.up ==> old(disk.up)
      ensures old(disk.history) <= disk.history
      ensures s == if recovery then old(s).(recovery := s.recovery) else old(s).(ownership := s.ownership)
      ensures disk.tree.Keys == old(disk.tree).Keys
      ensures ok ==> disk.up && disk.saved == Some(s)
      ensures ok ==> AllSealed(disk.tree, PathsOf(Entries(recovery)), old(disk.nextInode))
      ensures ok ==> forall i :: 0 <= i < |disk.roots| ==> disk.roots[i] in disk.tree
    {
      hide Fencing, Sound, SealedBelow, Chained, PathsOf, WellFormed;
      var entries, bytes := 0, 0;
      for i := 0 to |disk.roots|
        invariant Fencing(recovery) && disk.saved == Some(s) && (disk.up ==> old(disk.up))
        invariant old(disk.history) <= disk.history
        invariant s == if recovery then old(s).(recovery := s.recovery) else old(s).(ownership := s.ownership)
        invariant disk.tree.Keys == old(disk.tree).Keys && disk.nextInode >= old(disk.nextInode)
        invariant forall k :: 0 <= k < i ==>
                    disk.roots[k] in disk.tree
                    && SealedBelow(disk.tree, disk.roots[k], PathsOf(Entries(recovery)), old(disk.nextInode))
      {
        var dir := disk.roots[i];
        ok := disk.Ask();
        if !ok || dir !in disk.tree || !disk.tree[dir].kind.Directory? { return false; }
        ghost var tree := disk.tree;
        ghost var recorded := Entries(recovery);
        ghost var inode := disk.nextInode;
        FencingShape(recovery);
        RootIsChained(disk.tree, disk.roots, i);
        ok, entries, bytes := Seal(dir, owner, disk.tree[dir].device, 0, recovery, entries, bytes);
        assert disk.tree.Keys == tree.Keys;
        if !ok { return; }
        PrefixPaths(recorded, Entries(recovery));
        OlderInodes(disk.tree, dir, PathsOf(Entries(recovery)), inode, old(disk.nextInode));
        forall k | 0 <= k < i
          ensures SealedBelow(disk.tree, disk.roots[k], PathsOf(Entries(recovery)), old(disk.nextInode))
        {
          RootStaysSealed(tree, disk.tree, disk.roots[k], dir, PathsOf(recorded), PathsOf(Entries(recovery)),
                          old(disk.nextInode));
        }
      }
      FencingShape(recovery);
      RootsCoverTree(disk.tree, disk.roots, PathsOf(Entries(recovery)), old(disk.nextInode));
      ok := disk.up;
    }

    lemma FencingShape(recovery: bool)
      requires Fencing(recovery)
      ensures WellFormed(disk.tree, disk.roots)
    {
      Shape(disk);
    }

    /** Gives every listed node that still exists its listed owner and mode (`restoring`), or
        one owner and a closed mode; the list is walked backwards, children before parents. */
    method ChangeOwnership(entries: seq<Ownership>, uid: int, gid: int, restoring: bool) returns (ok: bool)
      requires Synced() && Distinct(entries) && PathsOf(entries) <= PathsOf(s.ownership) + PathsOf(s.recovery)
      modifies disk`up, disk`tree
      ensures Synced()
      ensures disk.up ==> old(disk.up)
      ensures disk.tree.Keys == old(disk.tree).Keys
      ensures forall p :: p in disk.tree ==> disk.tree[p].kind == old(disk.tree[p]).kind
      ensures ok ==> disk.up
      ensures ok && restoring ==> Applied(entries, old(disk.tree), disk.tree)
      ensures ok && !restoring ==>
                forall e :: e in entries && e.path in disk.tree ==> GivenTo(disk.tree[e.path], uid, gid)
      ensures forall p :: p in disk.tree && p !in PathsOf(entries) ==> disk.tree[p] == old(disk.tree[p])
    {
      hide Inv, JournalOk, Sound;
      var i := |entries|;
      while i > 0
        invariant 0 <= i <= |entries|
        invariant Synced() && (disk.up ==> old(disk.up))
        invariant disk.tree.Keys == old(disk.tree).Keys
        invariant forall p :: p in disk.tree ==> disk.tree[p].kind == old(disk.tree[p]).kind
        invariant forall p :: p in disk.tree && p !in PathsOf(entries) ==> disk.tree[p] == old(disk.tree[p])
        invariant restoring ==> forall k :: i <= k < |entries| && entries[k].path in disk.tree ==>
                                  Owns(entries[k], disk.tree[entries[k].path])
        invariant !restoring ==> forall k :: i <= k < |entries| && entries[k].path in disk.tree ==>
                                   GivenTo(disk.tree[entries[k].path], uid, gid)
      {
        i := i - 1;
        var e := entries[i];
        assert e in entries && e.path in PathsOf(entries);
        ok := ChangeOne(e.path, if restoring then e else Ownership(e.path, uid, gid, 0), restoring);
        if !ok { return false; }
      }
      ok := disk.up;
    }

    /** Gives one node that exists, and is no symlink, to an owner with a given or a closed mode. */
    method ChangeOne(path: Path, e: Ownership, restoring: bool) returns (ok: bool)
      requires Synced() && e.path == path && path in PathsOf(s.ownership) + PathsOf(s.recovery)
      modifies disk`up, disk`tree
      ensures Synced()
      ensures disk.up ==> old(disk.up)
      ensures disk.tree.Keys == old(disk.tree).Keys
      ensures forall p :: p in disk.tree ==> disk.tree[p].kind == old(disk.tree[p]).kind
      ensures forall p :: p in disk.tree && p != path ==> disk.tree[p] == old(disk.tree[p])
      ensures ok ==> disk.up
      ensures ok && path in disk.tree ==>
                if restoring then Owns(e, disk.tree[path]) else GivenTo(disk.tree[path], e.uid, e.gid)
    {
      hide Sound;
      ok := disk.Ask();
      if path !in disk.tree { return; }
      if !ok || disk.tree[path].kind.Symlink? { return false; }
      ok := Assign(path, e.uid, e.gid, if restoring then e.mode else SealedMode(disk.tree[path]));
    }

    method Assign(path: Path, uid: int, gid: int, mode: nat) returns (ok: bool)
      requires Synced() && path in disk.tree && path in PathsOf(s.ownership) + PathsOf(s.recovery)
      modifies disk`up, disk`tree
      ensures Synced()
      ensures disk.up ==> old(disk.up)
      ensures disk.tree.Keys == old(disk.tree).Keys && disk.tree[path].kind == old(disk.tree[path]).kind
      ensures forall p :: p in disk.tree && p != path ==> disk.tree[p] == old(disk.tree[p])
      ensures ok ==> disk.up && Owns(Ownership(path, uid, gid, mode), disk.tree[path])
    {
      hide Inv, JournalOk, Sound;
      ok := GiveTo(path, uid, gid, mode);
      TreeChanged(disk, s);
    }

    method AdjustEntry(e: Ownership, originals: map<Path, Ownership>) returns (ok: bool, a: Ownership)
      requires forall p :: p in originals <==> p in PathsOf(s.ownership)
      requires forall p :: p in originals ==> Lookup(s.ownership, p) == Some(originals[p])
      modifies disk`up
      ensures disk.up ==> old(disk.up)
      ensures ok ==> disk.up && a == Adjusted(e, s.ownership, disk.roots, disk.tree)
    {
      a := e;
      for i := 0 to |disk.roots|
        invariant a == e && disk.up == old(disk.up)
        invariant FirstRoot(disk.roots, e.path) == FirstRoot(disk.roots[i..], e.path)
      {
        var dir := disk.roots[i];
        assert disk.roots[i..][0] == dir && disk.roots[i..][1..] == disk.roots[i + 1..];
        if !(dir <= e.path) { continue; }
        if dir in originals {
          ok := disk.Ask();
          var isDir := e.path in disk.tree && disk.tree[e.path].kind.Directory?;
          a := Ownership(e.path, originals[dir].uid, originals[dir].gid, if isDir then 0x1C0 else 0x180);
          return;
        }
        return disk.up, a;
      }
      ok := disk.up;
    }

    /** Gives every path either fence has recorded back to its owner. */
    method RestoreStateOwnership() returns (ok: bool)
      requires Synced()
      modifies disk`up, disk`tree
      ensures Synced()
      ensures disk.up ==> old(disk.up)
      ensures disk.tree.Keys == old(disk.tree).Keys
      ensures forall p :: p in disk.tree ==> disk.tree[p].kind == old(disk.tree[p]).kind
      ensures ok ==> disk.up && GivenBack(s, old(disk.tree), disk.tree, disk.roots)
    {
      hide Inv, JournalOk, RestoreList, Adjusted;
      EntriesDistinct(disk, s);
      var originals := Originals(s.ownership);
      var entries := s.ownership;
      RestoreListStarts(s, disk.roots, disk.tree);
      for i := 0 to |s.recovery|
        invariant Synced() && (disk.up ==> old(disk.up)) && disk.tree == old(disk.tree)
        invariant RestoreList(entries, s, i, disk.roots, disk.tree)
      {
        var e := s.recovery[i];
        RestoreListGrows(entries, s, i, disk.roots, disk.tree);
        if e.path in originals { continue; }
        var a;
        ok, a := AdjustEntry(e, originals);
        if !ok { return false; }
        entries := entries + [a];
      }
      RestoreListPaths(entries, s, disk.roots, disk.tree);
      ListDistinct(entries, s, disk.roots, disk.tree);
      ok := ChangeOwnership(entries, 0, 0, true);
      if ok {
        ListGivesBack(entries, s, old(disk.tree), disk.tree, disk.roots);
      }
    }

    // ---- protected files --------------------------------------------------------------

    ghost predicate Changing()
      reads this`s, disk`files, disk`tree, disk`nextInode, disk`copies, disk`saved, disk`upgrades
      reads disk`original, disk`firstTree, disk`touched, disk`plan, disk`history, disk`issued, disk`sent
      reads disk`settled, disk`archives
    {
      Synced() && (s.phase.Mutating? || s.phase.Restoring?)
    }

    method Write(path: Path, file: File) returns (ok: bool)
      requires Changing() && path in disk.layout.Protected()
      modifies disk`up, disk`files
      ensures Changing()
      ensures disk.up ==> old(disk.up)
      ensures disk.files == old(disk.files) || disk.files == old(disk.files)[path := file]
      ensures ok ==> disk.up && disk.files == old(disk.files)[path := file]
    {
      hide Inv, JournalOk;
      var fate: Fate := *;
      ok := disk.AtomicWrite(path, file, fate);
      FilesChanged(disk, s);
    }

    method Remove(path: Path) returns (ok: bool)
      requires Changing() && path in disk.layout.Protected()
      modifies disk`up, disk`files
      ensures Changing()
      ensures disk.up ==> old(disk.up)
      ensures disk.files == old(disk.files) || disk.files == old(disk.files) - {path}
      ensures ok ==> disk.up && disk.files == old(disk.files) - {path}
    {
      hide Inv, JournalOk;
      var fate: Fate := *;
      ok := disk.Remove(path, fate);
      FilesChanged(disk, s);
    }

    /** A running daemon does as it likes with its own directories. */
    method DaemonRuns(daemon: Daemon)
      requires Sound(disk, s)
      modifies disk`tree, disk`nextInode, disk`touched
      ensures Sound(disk, s)
      ensures (disk.tree, disk.nextInode) == Acts(daemon, old(disk.tree), old(disk.nextInode), disk.roots)
      ensures disk.touched == old(disk.touched) + Differences(old(disk.tree), disk.tree)
    {
      hide Inv, JournalOk, Sound, WellFormed;
      LetAct(disk, daemon);
      DaemonActed(disk, s, daemon);
    }

    /** The service is at work on the tree that was handed to it. */
    ghost predicate AtWork(daemon: Daemon, h: Handover)
      reads disk`tree, disk`nextInode, disk`touched
    {
      && (disk.tree, disk.nextInode) == Acts(daemon, h.tree, h.nextInode, disk.roots)
      && disk.touched == h.touched + Differences(h.tree, disk.tree)
    }

    /** Restarts a service, whose daemon is at work as soon as the restart takes effect, be that
        reported or not. */
    method Restart(daemon: Daemon) returns (ok: bool)
      requires Changing()
      modifies disk`up, disk`tree, disk`nextInode, disk`touched
      ensures Changing()
      ensures disk.up ==> old(disk.up)
      ensures var h := old(Handover(disk.tree, disk.nextInode, disk.touched));
              || AtWork(daemon, h)
              || (!ok && disk.tree == h.tree && disk.nextInode == h.nextInode && disk.touched == h.touched)
      ensures ok ==> disk.up
    {
      hide Inv, JournalOk, Acts;
      var fate: Fate := *;
      if disk.up && fate.Applies() { DaemonRuns(daemon); }
      ok := disk.Check(fate);
    }

    /** The daemon acts until it is stopped.  Remembers, for the proof only, what it leaves behind
        while nothing has been recorded. */
    method RunUntilStopped(daemon: Daemon)
      requires Sound(disk, s) && (Unrecorded(s) ==> Unrecorded(disk.saved.value))
      modifies disk`tree, disk`nextInode, disk`firstTree, disk`touched
      ensures Sound(disk, s)
      ensures (disk.tree, disk.nextInode) == Acts(daemon, old(disk.tree), old(disk.nextInode), disk.roots)
      ensures NotedSince(s, old(NotesOf(disk)), NotesOf(disk))
    {
      hide Inv, JournalOk, Acts;
      DaemonRuns(daemon);
      if Unrecorded(s) { NoteTree(); }
    }

    ghost method NoteTree()
      requires Sound(disk, s) && Unrecorded(s) && Unrecorded(disk.saved.value)
      modifies disk`firstTree, disk`touched
      ensures Sound(disk, s) && disk.firstTree == disk.tree && disk.touched == {}
    {
      hide Inv, JournalOk;
      disk.firstTree, disk.touched := disk.tree, {};
      TreeNoted(disk, s);
    }

    method InstallRescue(h: HelperFiles) returns (ok: bool)
      requires Changing()
      modifies disk`up, disk`files
      ensures Changing()
      ensures disk.up ==> old(disk.up)
      ensures ok ==> disk.up && disk.files == InstallHelper(old(disk.files), disk.layout, h)
    {
      hide Sound;
      ok := Write(disk.layout.helperBinary, h.binary);
      if !ok { return; }
      ok := disk.Ask();
      if !ok { return; }
      ok := Write(disk.layout.helperConfig, h.config);
      if !ok { return; }
      ok := Write(disk.layout.helperUnit, h.unit);
    }

    method RemoveRescue() returns (ok: bool)
      requires Changing()
      modifies disk`up, disk`files
      ensures Changing()
      ensures disk.up ==> old(disk.up)
      ensures ok ==> disk.up && disk.files == WithoutHelper(old(disk.files), disk.layout)
    {
      hide Sound;
      if disk.layout.helperUnit !in disk.files { return disk.up; }
      ok := disk.Ask();
      if !ok { return; }
      ok := disk.Ask();
      if !ok { return; }
      ok := Remove(disk.layout.helperUnit);
      if !ok { return; }
      ok := Remove(disk.layout.helperBinary);
      if !ok { return; }
      ok := Remove(disk.layout.helperConfig);
    }

    /** Hands the state tree to a non-root daemon and lets its group read the bootstrap. */
    method GrantToServiceUser(plan: Plan) returns (ok: bool)
      requires Changing()
      modifies disk`up, disk`files, disk`tree
      ensures Changing()
      ensures disk.up ==> old(disk.up)
      ensures var b := disk.layout.bootstrap;
              ok ==> disk.up && b in old(disk.files) &&
                     disk.files == old(disk.files)[b := old(disk.files)[b].(uid := 0, gid := plan.gid, mode := 0x1A0)]
      ensures disk.tree.Keys == old(disk.tree).Keys
      ensures ok ==>
                forall e :: e in s.ownership && e.path in disk.tree ==> GivenTo(disk.tree[e.path], plan.uid, plan.gid)
    {
      hide Sound;
      var b := disk.layout.bootstrap;
      OwnershipDistinct();
      ok := ChangeOwnership(s.ownership, plan.uid, plan.gid, false);
      if !ok || b !in disk.files { return false; }
      ok := Write(b, disk.files[b].(uid := 0, gid := plan.gid));
      if !ok { return; }
      ok := Write(b, disk.files[b].(mode := 0x1A0));
    }

    lemma OwnershipDistinct()
      requires Synced()
      ensures Distinct(s.ownership)
    {
      EntriesDistinct(disk, s);
    }

    /** Stops the daemon, fences its state, publishes the approved profile and starts it again on
        the tree `h`, which belongs to the target identity alone. */
    method ExecuteTransaction(plan: Plan, owner: int, work: Work) returns (ok: bool, ghost h: Handover)
      requires Synced() && s.phase.Mutating? && disk.plan == plan && disk.files == disk.original
      requires Unrecorded(s)
      modifies this`s, disk`up, disk`files, disk`tree, disk`nextInode
      modifies disk`saved, disk`history, disk`issued, disk`firstTree, disk`touched
      ensures Sound(disk, s) && s.phase.Mutating? && disk.saved.value.phase.Mutating?
      ensures s == old(s).(ownership := s.ownership, recovery := s.recovery, fence := s.fence)
      ensures disk.up ==> old(disk.up)
      ensures old(disk.history) <= disk.history
      ensures ok ==> disk.up && disk.saved == Some(s) && disk.files == Target(disk.layout, plan, disk.original)
      ensures ok && SevenPaths(disk.layout) ==> Installed(disk.files, disk.original, disk.layout, plan)
      ensures ok ==> s.fence.Profile? && PathsOf(s.ownership) >= disk.firstTree.Keys
      ensures disk.firstTree == old(Stopped(disk, work.untilStopped))
      ensures h.touched == {} && (disk.touched == {} || AtWork(work.asTarget, h))
      ensures ok ==> AtWork(work.asTarget, h) && HandedOver(h.tree, plan) && h.tree.Keys == disk.firstTree.Keys
      ensures Unrecorded(s) ==> Unrecorded(disk.saved.value)
    {
      hide Inv, JournalOk, Target, HandedOver, PathsOf, Acts, Installed, Published, SevenPaths;
      ok := StopAndFence(owner, work.untilStopped);
      h := Handover(disk.tree, disk.nextInode, {});
      if !ok { return; }
      ghost var sealed := disk.tree;
      ok := PublishProfile(plan);
      h := Handover(disk.tree, disk.nextInode, {});
      if !ok { return; }
      ToTargetIdentity(plan, sealed);
      ok := StartTarget(plan, work.asTarget);
      if ok && SevenPaths(disk.layout) { TargetInstalls(disk.original, disk.layout, plan); }
    }

    /** Stops the daemon and fences what it leaves behind. */
    method StopAndFence(owner: int, daemon: Daemon) returns (ok: bool)
      requires Synced() && s.phase.Mutating? && Unrecorded(s)
      modifies this`s, disk`up, disk`tree, disk`nextInode
      modifies disk`saved, disk`history, disk`issued, disk`firstTree, disk`touched
      ensures Sound(disk, s) && disk.saved.value.phase.Mutating?
      ensures s == old(s).(ownership := s.ownership, fence := s.fence)
      ensures disk.up ==> old(disk.up)
      ensures old(disk.history) <= disk.history
      ensures ok ==> disk.up && disk.saved == Some(s) && s.fence.Profile?
      ensures disk.firstTree == old(Stopped(disk, daemon)) && disk.touched == {}
      ensures ok ==> disk.tree.Keys == disk.firstTree.Keys && disk.firstTree.Keys <= PathsOf(s.ownership)
      ensures ok ==> forall p :: p in disk.tree ==> GivenTo(disk.tree[p], 0, 0)
      ensures Unrecorded(s) ==> Unrecorded(disk.saved.value)
    {
      hide Inv, JournalOk, PathsOf, Acts;
      RunUntilStopped(daemon);
      ok := disk.Ask();
      if !ok { return; }
      ok := disk.Ask();
      if !ok { return; }
      ok := FenceAndMark(owner);
    }

    /** The target daemon runs before the applied record is written. */
    method StartTarget(plan: Plan, daemon: Daemon) returns (ok: bool)
      requires Changing()
      modifies disk`up, disk`files, disk`tree, disk`nextInode, disk`touched
      ensures Changing()
      ensures disk.up ==> old(disk.up)
      ensures ok ==> disk.up && disk.files == old(disk.files)[disk.layout.applied := plan.applied]
      ensures var h := old(Handover(disk.tree, disk.nextInode, disk.touched));
              AtWork(daemon, h) || (!ok && disk.touched == h.touched)
    {
      hide Inv, JournalOk, Acts;
      ok := Restart(daemon);
      if !ok { return; }
      ok := disk.Ask();
      if !ok { return; }
      ok := Write(disk.layout.applied, plan.applied);
    }

    /** Every state file belongs to the identity that the target service runs as, and to no one else. */
    static ghost predicate HandedOver(tree: Tree, plan: Plan) {
      forall p :: p in tree ==>
        GivenTo(tree[p], if plan.nonRoot then plan.uid else 0, if plan.nonRoot then plan.gid else 0)
    }

    lemma ToTargetIdentity(plan: Plan, sealed: Tree)
      requires disk.tree.Keys == sealed.Keys && sealed.Keys <= PathsOf(s.ownership)
      requires forall p :: p in sealed ==> GivenTo(sealed[p], 0, 0)
      requires !plan.nonRoot ==> disk.tree == sealed
      requires plan.nonRoot ==>
                 forall e :: e in s.ownership && e.path in disk.tree ==> GivenTo(disk.tree[e.path], plan.uid, plan.gid)
      ensures HandedOver(disk.tree, plan)
    {
      forall p | p in disk.tree && plan.nonRoot ensures GivenTo(disk.tree[p], plan.uid, plan.gid) {
        var e :| e in s.ownership && e.path == p;
      }
    }

    /** The fence, then the live lease, then the durable mark that lets the profile change. */
    method FenceAndMark(owner: int) returns (ok: bool)
      requires Synced() && s.phase.Mutating?
      requires s.fence.Unfenced? && s.recovery == [] && disk.touched == {} && disk.firstTree == disk.tree
      modifies this`s, disk`up, disk`tree, disk`nextInode, disk`saved, disk`history, disk`issued
      ensures Sound(disk, s) && disk.saved.value.phase.Mutating?
      ensures s == old(s).(ownership := s.ownership, fence := s.fence)
      ensures disk.up ==> old(disk.up)
      ensures old(disk.history) <= disk.history
      ensures ok ==> disk.up && disk.saved == Some(s) && s.fence.Profile?
                     && AllSealed(disk.tree, PathsOf(s.ownership), old(disk.nextInode))
                     && PathsOf(s.ownership) >= disk.firstTree.Keys
      ensures disk.tree.Keys == old(disk.tree).Keys
      ensures !s.fence.Unfenced?
    {
      hide Inv, JournalOk;
      ok := FenceStateDirectories(owner, false);
      if !ok { return; }
      ok := disk.Ask();
      if !ok { return; }
      ok := disk.Ask();
      if !ok { return; }
      ProfileStarts(disk, s);
      s := s.(fence := Profile);
      ok := Save();
    }

    method PublishProfile(plan: Plan) returns (ok: bool)
      requires Changing() && s.phase.Mutating?
      modifies disk`up, disk`files, disk`tree
      ensures Changing()
      ensures disk.up ==> old(disk.up)
      ensures ok ==>
                && disk.up
                && Target(disk.layout, plan, old(disk.files)) == disk.files[disk.layout.applied := plan.applied]
      ensures ok && SevenPaths(disk.layout) ==> Published(disk.files, old(disk.files), disk.layout, plan)
      ensures disk.tree.Keys == old(disk.tree).Keys && (!plan.nonRoot ==> disk.tree == old(disk.tree))
      ensures ok && plan.nonRoot ==>
                forall e :: e in s.ownership && e.path in disk.tree ==> GivenTo(disk.tree[e.path], plan.uid, plan.gid)
    {
      hide Sound, Target, Published, SevenPaths;
      ok := WriteProfile(plan);
      if ok && SevenPaths(disk.layout) { PublishedFirst(disk.files, old(disk.files), disk.layout, plan); }
    }

    method WriteProfile(plan: Plan) returns (ok: bool)
      requires Changing() && s.phase.Mutating?
      modifies disk`up, disk`files, disk`tree
      ensures Changing()
      ensures disk.up ==> old(disk.up)
      ensures ok ==>
                && disk.up
                && Target(disk.layout, plan, old(disk.files)) == disk.files[disk.layout.applied := plan.applied]
      ensures disk.tree.Keys == old(disk.tree).Keys && (!plan.nonRoot ==> disk.tree == old(disk.tree))
      ensures ok && plan.nonRoot ==>
                forall e :: e in s.ownership && e.path in disk.tree ==> GivenTo(disk.tree[e.path], plan.uid, plan.gid)
    {
      hide Sound;
      ok := Write(disk.layout.policy, plan.policy);
      if !ok { return; }
      ok := Write(disk.layout.bootstrap, plan.bootstrap);
      if !ok { return; }
      ok := disk.Ask();
      if !ok { return; }
      ok := Write(disk.layout.profile, plan.profile);
      if !ok { return; }
      if plan.rescueEnabled && plan.helper.Some? {
        ok := InstallRescue(plan.helper.value);
        if !ok { return; }
      }
      if !plan.rescueEnabled {
        ok := RemoveRescue();
        if !ok { return; }
      }
      if plan.nonRoot {
        ok := GrantToServiceUser(plan);
        if !ok { return; }
      }
      ok := disk.Ask();
    }

    // ---- restoration ------------------------------------------------------------------

    /** Puts one backed-up file back: its bytes, mode and owner together, or its absence. */
    method RestoreFile(k: nat) returns (ok: bool)
      requires Changing() && k < |s.backups|
      modifies disk`up, disk`files
      ensures Changing()
      ensures disk.up ==> old(disk.up)
      ensures forall p :: p != s.backups[k].path ==>
                (p in disk.files <==> p in old(disk.files)) && (p in disk.files ==> disk.files[p] == old(disk.files)[p])
      ensures ok ==> disk.up && AsBackedUp(s.backups[k].path, disk.files, disk.original)
      ensures AsBackedUp(s.backups[k].path, old(disk.files), disk.original) ==> disk.files == old(disk.files)
    {
      hide Inv, JournalOk;
      BackupFacts(disk, s, k);
      var b := s.backups[k];
      if !b.existed {
        ok := Remove(b.path);
        return;
      }
      ok := disk.Ask();
      if !ok || b.copy !in disk.copies { return false; }
      ok := Write(b.path, File(disk.copies[b.copy], b.mode, b.uid, b.gid));
    }

    /** Doing it again, in part or in whole, changes nothing. */
    method RestoreFiles() returns (ok: bool)
      requires Changing()
      modifies disk`up, disk`files
      ensures (forall k :: 0 <= k < |s.backups| ==> AsBackedUp(s.backups[k].path, old(disk.files), disk.original)) ==>
                disk.files == old(disk.files)
      ensures Changing()
      ensures disk.up ==> old(disk.up)
      ensures ok ==> disk.up && forall k :: 0 <= k < |s.backups| ==>
                AsBackedUp(s.backups[k].path, disk.files, disk.original)
    {
      hide Sound;
      var i := |s.backups|;
      while i > 0
        invariant 0 <= i <= |s.backups|
        invariant Changing() && (disk.up ==> old(disk.up))
        invariant forall k :: i <= k < |s.backups| ==> AsBackedUp(s.backups[k].path, disk.files, disk.original)
        invariant (forall k :: 0 <= k < |s.backups| ==> AsBackedUp(s.backups[k].path, old(disk.files), disk.original))
                  ==>
                    disk.files == old(disk.files)
      {
        i := i - 1;
        DistinctBackups(i);
        ok := RestoreFile(i);
        if !ok { return; }
      }
      ok := disk.up;
    }

    lemma DistinctBackups(k: nat)
      requires Changing() && k < |s.backups|
      ensures forall j :: 0 <= j < |s.backups| && j != k ==> s.backups[j].path != s.backups[k].path
    {
      BackupFacts(disk, s, k);
    }

    ghost predicate TreeGivenBack()
      reads this`s, disk`tree, disk`firstTree, disk`touched
    {
      TreeReturned(s.ownership, s.fence, disk.tree, disk.firstTree, disk.touched, disk.roots)
    }

    method GiveTreeBack() returns (ok: bool)
      requires Changing()
      requires s.fence.Profile? ==> disk.tree.Keys <= PathsOf(s.recovery)
      modifies disk`up, disk`tree
      ensures Changing()
      ensures disk.up ==> old(disk.up)
      ensures ok ==> disk.up && TreeGivenBack()
    {
      hide Inv, JournalOk, PathsOf;
      ghost var before := disk.tree;
      Ahead(disk, s);
      ok := RestoreStateOwnership();
      if ok {
        OriginalOwnersReturn(s, before, disk.tree, disk.firstTree, disk.touched, disk.roots);
        if s.fence.Profile? {
          forall p | p in disk.tree && p !in disk.firstTree
            ensures FollowsRoot(p, disk.tree[p], disk.firstTree, disk.roots)
          {
            NewFilesFollowTheirRoot(s, before, disk.tree, disk.firstTree, disk.touched, disk.roots, p);
          }
        }
      }
    }

    /** The daemon is stopped: fence what it left, put the files back, give the tree back. */
    method Undo(owner: int) returns (ok: bool)
      requires Synced() && s.phase.Restoring?
      modifies this`s, disk`up, disk`files, disk`tree, disk`nextInode
      modifies disk`saved, disk`history, disk`issued
      ensures Sound(disk, s) && s.phase.Restoring? && disk.saved.value.phase.Restoring?
      ensures s == old(s).(recovery := s.recovery) && disk.saved.value.fence == s.fence
      ensures disk.up ==> old(disk.up)
      ensures old(disk.history) <= disk.history
      ensures ok ==> disk.up && disk.saved == Some(s) && TreeGivenBack()
      ensures ok ==> forall k :: 0 <= k < |s.backups| ==> AsBackedUp(s.backups[k].path, disk.files, disk.original)
    {
      hide Inv, JournalOk, PathsOf, TreeReturned, AsBackedUp;
      ok := FenceStateDirectories(owner, true);
      if !ok { return; }
      ok := RestoreFiles();
      if !ok { return; }
      ok := GiveTreeBack();
    }

    /** Stops everything, undoes the transaction and starts the original service again on the tree
        `h`, in which everything has been given back. */
    method RestoreTransaction(owner: int, work: Work) returns (ok: bool, ghost h: Handover)
      requires Sound(disk, s) && (s.phase.Mutating? || s.phase.LocalApplied? || s.phase.Restoring?)
      requires disk.saved == Some(s) || (s.phase.Mutating? && disk.saved.value.phase.Mutating?)
      requires Unrecorded(s) ==> Unrecorded(disk.saved.value)
      modifies this`s, disk`up, disk`files, disk`tree, disk`nextInode
      modifies disk`saved, disk`history, disk`issued, disk`firstTree, disk`touched
      ensures Sound(disk, s)
      ensures disk.up ==> old(disk.up)
      ensures old(disk.history) <= disk.history
      ensures ok ==> disk.up && disk.saved == Some(s) && s.phase.Restored?
      ensures ok ==> PutBackExactly(disk.files, disk.original, disk.layout)
      ensures ok ==> Recovered(disk.files, disk.original, disk.layout) && Returned(h, work.asOriginal)
      ensures ok ==> (disk.files == disk.original <==>
                      forall p :: p in disk.layout.Protected() && p in disk.original ==> disk.original[p].mode < 0x200)
      ensures NotedSince(old(s), old(NotesOf(disk)),
                         Notes(old(Stopped(disk, work.untilUndone)), disk.firstTree, h.touched))
      ensures disk.touched == h.touched || AtWork(work.asOriginal, h)
      ensures s == old(s).(phase := s.phase, recovery := s.recovery)
      ensures disk.saved.value.fence in {old(disk.saved).value.fence, s.fence}
    {
      hide Inv, JournalOk, Recovered, PutBackExactly, AsBackedUp, TreeReturned, PathsOf, Acts, Sound;
      RunUntilStopped(work.untilUndone);
      h := Handover(disk.tree, disk.nextInode, disk.touched);
      ok := StopForRestoration();
      if !ok { return; }
      ok, h := UndoAndRestart(owner, work.asOriginal);
      if !ok { return; }
      ok := MarkRestored();
    }

    method UndoAndRestart(owner: int, daemon: Daemon) returns (ok: bool, ghost h: Handover)
      requires Synced() && s.phase.Restoring?
      modifies this`s, disk`up, disk`files, disk`tree, disk`nextInode
      modifies disk`saved, disk`history, disk`issued, disk`touched
      ensures Sound(disk, s) && s.phase.Restoring? && disk.saved.value.phase.Restoring?
      ensures s == old(s).(recovery := s.recovery) && disk.saved.value.fence == s.fence
      ensures disk.up ==> old(disk.up)
      ensures old(disk.history) <= disk.history
      ensures h.touched == old(disk.touched) && (disk.touched == h.touched || AtWork(daemon, h))
      ensures ok ==> disk.up && disk.saved == Some(s) && Returned(h, daemon)
      ensures ok ==> forall k :: 0 <= k < |s.backups| ==> AsBackedUp(s.backups[k].path, disk.files, disk.original)
    {
      hide Inv, JournalOk, PathsOf, TreeReturned, AsBackedUp, Acts, Sound;
      ok := Undo(owner);
      h := Handover(disk.tree, disk.nextInode, disk.touched);
      if !ok { return; }
      ok := RestartOriginal(daemon);
    }

    method MarkRestored() returns (ok: bool)
      requires Synced() && s.phase.Restoring?
      requires forall k :: 0 <= k < |s.backups| ==> AsBackedUp(s.backups[k].path, disk.files, disk.original)
      modifies this`s, disk`up, disk`saved, disk`history, disk`issued
      ensures Sound(disk, s) && s == old(s).(phase := Restored)
      ensures disk.up ==> old(disk.up)
      ensures old(disk.history) <= disk.history
      ensures disk.saved == old(disk.saved) || disk.saved == Some(s)
      ensures ok ==> disk.up && disk.saved == Some(s)
      ensures PutBackExactly(disk.files, disk.original, disk.layout)
      ensures Recovered(disk.files, disk.original, disk.layout)
      ensures disk.files == disk.original <==>
              forall p :: p in disk.layout.Protected() && p in disk.original ==> disk.original[p].mode < 0x200
    {
      hide Inv, JournalOk, Recovered, PutBackExactly, AsBackedUp;
      RestorationEnds(disk, s);
      RecoveredExactly(disk.files, disk.original, disk.layout);
      s := s.(phase := Restored);
      ok := Save();
    }

    method StopForRestoration() returns (ok: bool)
      requires Sound(disk, s) && (s.phase.Mutating? || s.phase.LocalApplied? || s.phase.Restoring?)
      requires disk.saved == Some(s) || (s.phase.Mutating? && disk.saved.value.phase.Mutating?)
      modifies this`s, disk`up, disk`saved, disk`history, disk`issued
      ensures Sound(disk, s) && s == old(s).(phase := Restoring)
      ensures disk.up ==> old(disk.up)
      ensures old(disk.history) <= disk.history
      ensures disk.saved == old(disk.saved) || disk.saved == Some(s)
      ensures ok ==> disk.up && disk.saved == Some(s)
    {
      hide Inv, JournalOk;
      RestorationStarts(disk, s);
      s := s.(phase := Restoring);
      ok := Save();
      if !ok { return; }
      ok := disk.Ask();
      if !ok { return; }
      if disk.layout.helperUnit in disk.files {
        ok := disk.Ask();
        if !ok { return; }
        var ignored := disk.Ask();
      }
      ok := disk.Ask();
    }

    /** The tree was handed to the original service with everything given back. */
    ghost predicate Returned(h: Handover, daemon: Daemon)
      reads this`s, disk`tree, disk`nextInode, disk`firstTree, disk`touched
    {
      && TreeReturned(s.ownership, s.fence, h.tree, disk.firstTree, h.touched, disk.roots)
      && AtWork(daemon, h)
    }

    method RestartOriginal(daemon: Daemon) returns (ok: bool)
      requires Changing()
      modifies disk`up, disk`tree, disk`nextInode, disk`touched
      ensures Changing()
      ensures disk.up ==> old(disk.up)
      ensures var h := old(Handover(disk.tree, disk.nextInode, disk.touched));
              AtWork(daemon, h) || (!ok && disk.touched == h.touched)
      ensures ok ==> disk.up
    {
      hide Inv, JournalOk, Acts;
      ok := disk.Ask();
      if !ok { return; }
      if s.previousHelper {
        ok := disk.Ask();
        if !ok { return; }
      }
      ok := Restart(daemon);
      if !ok { return; }
      ok := disk.Ask();
    }

    // ---- receipts ---------------------------------------------------------------------

    /** Tells the panel a phase under a receipt that is durable before it is sent, and keeps
        the same receipt until the panel has accepted it. */
    method Report(phase: ReportPhase) returns (ok: bool)
      requires Synced()
      modifies this`s, disk`up, disk`saved, disk`history, disk`issued, disk`sent, disk`settled
      ensures Sound(disk, s)
      ensures disk.up ==> old(disk.up)
      ensures old(disk.history) <= disk.history
      ensures s == old(s).(receipt := s.receipt)
      ensures ok ==> disk.up && disk.saved == Some(s) && s.receipt.None?
      ensures old(disk.sent) <= disk.sent <= old(disk.sent) + disk.issued
      ensures old(disk.settled) <= disk.settled <= old(disk.settled) + disk.sent
      ensures disk.saved.value.fence == s.fence
      ensures old(s).receipt.Some? ==> s.receipt == old(s).receipt || s.receipt.None?
      ensures ok ==> exists id: nat :: Delivered(id, old(disk.sent), old(disk.settled))
                                       && (old(s).receipt.Some? ==> old(s).receipt.value == Receipt(id, phase))
    {
      hide Inv, JournalOk, Lawful, Follows;
      ok := NoteReceipt(phase);
      if !ok { return; }
      var r := s.receipt.value;
      ok := disk.Ask();
      if !ok || r.phase != phase { return false; }
      var accepted := Send(r);
      ok := disk.Ask();
      if !ok || !accepted { return false; }
      assert Delivered(r.id, old(disk.sent), old(disk.settled));
      ReceiptSettled(disk, s);
      s := s.(receipt := None);
      ok := Save();
    }

    /** The panel was sent just this receipt, and has taken it. */
    ghost predicate Delivered(id: nat, sent: set<nat>, settled: set<nat>)
      reads disk`sent, disk`settled
    {
      disk.sent == sent + {id} && disk.settled == settled + {id}
    }

    /** Makes a receipt durable unless one is waiting. */
    method NoteReceipt(phase: ReportPhase) returns (ok: bool)
      requires Synced()
      modifies this`s, disk`up, disk`saved, disk`history, disk`issued
      ensures Sound(disk, s) && s == old(s).(receipt := s.receipt) && s.receipt.Some?
      ensures disk.up ==> old(disk.up)
      ensures old(disk.history) <= disk.history
      ensures ok ==> Synced()
      ensures disk.saved.value.fence == s.fence
      ensures if old(s).receipt.Some? then s == old(s) else s.receipt.value.phase == phase
    {
      hide Inv, JournalOk;
      if s.receipt.Some? { return true; }
      var id: nat := *;
      ReceiptNoted(disk, s, Receipt(id, phase));
      s := s.(receipt := Some(Receipt(id, phase)));
      ok := Save();
    }

    method Send(r: Receipt) returns (accepted: bool)
      requires Synced() && s.receipt == Some(r)
      modifies disk`sent, disk`settled
      ensures Synced()
      ensures disk.sent == old(disk.sent) + {r.id} && r.id in disk.issued
      ensures disk.settled == old(disk.settled) + if accepted then {r.id} else {}
    {
      hide Inv, JournalOk;
      DurableReceipt(disk, s);
      accepted := *;
      disk.sent := disk.sent + {r.id};
      disk.settled := disk.settled + if accepted then {r.id} else {};
      PanelActed(disk, s);
    }

    method SetReceiptAside() returns (ok: bool)
      requires Synced()
      modifies this`s, disk`up, disk`saved, disk`history, disk`issued
      ensures Sound(disk, s)
      ensures disk.up ==> old(disk.up)
      ensures old(disk.history) <= disk.history
      ensures s == old(s).(receipt := None, superseded := old(s).superseded + Outstanding(old(s)))
      ensures disk.saved.value.fence == s.fence
      ensures ok ==> disk.up && disk.saved == Some(s)
    {
      hide Inv, JournalOk;
      if s.receipt.Some? {
        ReceiptSuperseded(disk, s);
        s := s.(superseded := s.superseded + [s.receipt.value], receipt := None);
      }
      ok := Save();
    }

    /** A receipt for an earlier phase is kept aside, never sent as something else. */
    method ReportRestoration() returns (ok: bool)
      requires Synced() && s.phase.Restored?
      modifies this`s, disk`up, disk`saved, disk`history, disk`issued, disk`sent, disk`settled
      ensures Sound(disk, s) && s.phase.Restored?
      ensures disk.up ==> old(disk.up)
      ensures old(disk.history) <= disk.history
      ensures s == old(s).(receipt := s.receipt, superseded := s.superseded) && old(s).superseded <= s.superseded
      ensures old(disk.settled) <= disk.settled <= old(disk.settled) + disk.sent
      ensures disk.saved.value.fence == s.fence
      ensures ok ==> disk.up && disk.saved == Some(s) && s.receipt.None?
    {
      hide Inv, JournalOk;
      if s.receipt.Some? && !s.receipt.value.phase.ReportRestored? {
        ok := SetReceiptAside();
      } else {
        ok := Save();
      }
      if !ok { return; }
      ok := disk.Ask();
      if !ok { return; }
      var already: bool := *;
      if already {
        ok := disk.Ask();
        if !ok { return; }
        ok := SetReceiptAside();
      } else {
        ok := Report(ReportRestored);
      }
    }

    // ---- the end of a transaction -----------------------------------------------------

    /** Moves the whole journal directory away: backups, finished upgrades and all. */
    method ArchiveJournal() returns (ok: bool)
      requires Synced() && Archivable(s.phase)
      modifies disk`up, disk`saved, disk`copies, disk`upgrades, disk`archives
      ensures Inv(disk)
      ensures disk.up ==> old(disk.up)
      ensures ok ==> disk.up && disk.saved == None
      ensures CarriedOn(disk)
      ensures disk.saved == old(disk.saved) || (disk.saved == None && disk.upgrades == [] && disk.copies == map[])
      ensures disk.saved.Some? ==> disk.upgrades == old(disk.upgrades)
      ensures disk.saved == None ==>
                disk.archives ==
                old(disk.archives) + [Archive(s, old(disk.upgrades), disk.files, disk.original, disk.plan)]
    {
      hide Inv, JournalOk;
      var fate: Fate := *;
      if disk.up && fate.Applies() {
        disk.archives := disk.archives + [Archive(s, disk.upgrades, disk.files, disk.original, disk.plan)];
        disk.saved, disk.copies, disk.upgrades := None, map[], [];
        PutAway(disk, s);
      }
      ok := disk.Check(fate);
    }

    /** Waits for the restarted daemon's acknowledgement; only that completes the journal. */
    method FinishHost(delivered: bool) returns (ok: bool)
      requires Synced() && s.phase.LocalApplied?
      modifies this`s, disk`up, disk`saved, disk`history, disk`issued, disk`copies, disk`upgrades, disk`archives
      ensures Inv(disk)
      ensures disk.up ==> old(disk.up)
      ensures old(disk.history) <= disk.history
      ensures if disk.saved.Some? then disk.upgrades == old(disk.upgrades) else disk.upgrades == []
      ensures CarriedOn(disk) && (disk.saved.Some? ==> disk.saved.value.fence == s.fence)
      ensures disk.saved.None? ==> disk.files == Target(disk.layout, disk.plan, disk.original)
      ensures s == old(s).(phase := s.phase)
      ensures !delivered ==> s == old(s) && disk.saved == old(disk.saved) && disk.archives == old(disk.archives)
      ensures ok && delivered ==> disk.saved == None && s.phase.Completed?
    {
      hide Inv, JournalOk;
      ok := disk.Ask();
      if !ok || !delivered { return; }
      Acknowledged(disk, s);
      s := s.(phase := Completed);
      ok := Save();
      if !ok { return; }
      ok := ArchiveJournal();
    }
  }
}
